/** Slash-separated paths, the order of strings, and sorting. */
module Paths {
  // ---------------------------------------------------------------- splitting and joining

  // strings.Split(s, sep) for a one-character separator.
  function SplitBy(s: string, sep: char): (parts: seq<string>)
    ensures parts != []
  {
    if s == [] then [[]] else
    var front := SplitBy(s[..|s| - 1], sep);
    var c := s[|s| - 1];
    if c == sep then front + [[]]
    else front[..|front| - 1] + [front[|front| - 1] + [c]]
  }

  function Split(s: string): (parts: seq<string>)
    ensures parts != []
  {
    SplitBy(s, '/')
  }

  function NonEmpty(parts: seq<string>): seq<string> {
    if parts == [] then [] else
    var front := NonEmpty(parts[..|parts| - 1]);
    if parts[|parts| - 1] != [] then front + [parts[|parts| - 1]] else front
  }

  function Segments(s: string): seq<string> {
    NonEmpty(Split(s))
  }

  // "/a/b" for ["a", "b"]; the root is "".
  function Render(q: seq<string>): string {
    if q == [] then [] else Render(q[..|q| - 1]) + ['/'] + q[|q| - 1]
  }

  ghost predicate SlashFree(s: string) {
    '/' !in s
  }

  ghost predicate Clean(q: seq<string>) {
    forall i | 0 <= i < |q| :: q[i] != [] && SlashFree(q[i])
  }

  lemma {:induction false} SplitAppends(p: string, sep: char, name: string)
    requires sep !in name
    ensures SplitBy(p + [sep] + name, sep) == SplitBy(p, sep) + [name]
  {
    var s := p + [sep] + name;
    if name == [] {
      assert s[..|s| - 1] == p;
    } else {
      var front, c := name[..|name| - 1], name[|name| - 1];
      assert name == front + [c] && c in name;
      assert s[..|s| - 1] == p + [sep] + front;
      SplitAppends(p, sep, front);
      assert s[|s| - 1] == c && c != sep;
    }
  }

  lemma NonEmptyAppends(parts: seq<string>, name: string)
    ensures NonEmpty(parts + [name]) == NonEmpty(parts) + (if name != [] then [name] else [])
  {
    assert (parts + [name])[..|parts|] == parts;
  }

  // Reading a rendered path back gives its segments, so rendering loses nothing.
  lemma {:induction false} SegmentsOfRender(q: seq<string>)
    requires Clean(q)
    ensures Segments(Render(q)) == q
  {
    if q == [] {
      NonEmptyAppends([], []);
      var none: seq<string> := [];
      assert none + [[]] == [[]];
    } else {
      var front, name := q[..|q| - 1], q[|q| - 1];
      SegmentsOfRender(front);
      SplitAppends(Render(front), '/', name);
      NonEmptyAppends(Split(Render(front)), name);
    }
  }

  lemma {:induction false} PartsHaveNoSeparator(s: string, sep: char)
    ensures forall i | 0 <= i < |SplitBy(s, sep)| :: sep !in SplitBy(s, sep)[i]
  {
    if s != [] {
      PartsHaveNoSeparator(s[..|s| - 1], sep);
    }
  }

  lemma {:induction false} NonEmptyIsFilter(parts: seq<string>)
    ensures forall i | 0 <= i < |NonEmpty(parts)| :: NonEmpty(parts)[i] != [] && NonEmpty(parts)[i] in parts
  {
    if parts != [] {
      NonEmptyIsFilter(parts[..|parts| - 1]);
      assert parts == parts[..|parts| - 1] + [parts[|parts| - 1]];
    }
  }

  lemma SegmentsAreClean(s: string)
    ensures Clean(Segments(s))
  {
    PartsHaveNoSeparator(s, '/');
    NonEmptyIsFilter(Split(s));
  }

  lemma {:induction false} NonEmptyJoins(a: seq<string>, b: seq<string>)
    ensures NonEmpty(a + b) == NonEmpty(a) + NonEmpty(b)
  {
    if b == [] {
      assert a + b == a;
    } else {
      NonEmptyJoins(a, b[..|b| - 1]);
      assert (a + b)[..|a + b| - 1] == a + b[..|b| - 1];
    }
  }

  // The pieces when one more character comes.
  function AddChar(parts: seq<string>, sep: char, c: char): seq<string>
    requires parts != []
  {
    if c == sep then parts + [[]] else parts[..|parts| - 1] + [parts[|parts| - 1] + [c]]
  }

  lemma SplitStep(s: string, sep: char, c: char)
    ensures SplitBy(s + [c], sep) == AddChar(SplitBy(s, sep), sep, c)
  {
    assert (s + [c])[..|s|] == s;
  }

  lemma AddCharJoins(a: seq<string>, b: seq<string>, sep: char, c: char)
    requires b != []
    ensures AddChar(a + b, sep, c) == a + AddChar(b, sep, c)
  {
    assert (a + b)[..|a + b| - 1] == a + b[..|b| - 1];
  }

  lemma {:induction false} SplitJoins(p: string, sep: char, q: string)
    ensures SplitBy(p + [sep] + q, sep) == SplitBy(p, sep) + SplitBy(q, sep)
  {
    if q == [] {
      SplitStep(p, sep, sep);
      assert p + [sep] + q == p + [sep];
    } else {
      var front, c := q[..|q| - 1], q[|q| - 1];
      SplitJoins(p, sep, front);
      SplitJoinsStep(p + [sep] + front, SplitBy(p, sep), sep, front, c);
      Regroup(p + [sep], q, front, c);
    }
  }

  lemma Regroup(s: string, q: string, front: string, c: char)
    requires q != [] && front == q[..|q| - 1] && c == q[|q| - 1]
    ensures q == front + [c] && s + q == s + front + [c]
  {
  }

  lemma SplitJoinsStep(s: string, parts: seq<string>, sep: char, front: string, c: char)
    requires SplitBy(s, sep) == parts + SplitBy(front, sep)
    ensures SplitBy(s + [c], sep) == parts + SplitBy(front + [c], sep)
  {
    SplitStep(s, sep, c);
    SplitStep(front, sep, c);
    AddCharJoins(parts, SplitBy(front, sep), sep, c);
  }

  lemma {:induction false} NameSplits(name: string, sep: char)
    requires sep !in name
    ensures SplitBy(name, sep) == [name]
  {
    if name != [] {
      var front, c := name[..|name| - 1], name[|name| - 1];
      assert name == front + [c] && c in name;
      NameSplits(front, sep);
    }
  }

  // The segments of any path: a name is its own segment, the empty string has none, and a slash separates, be
  // it leading, trailing or doubled.
  lemma SegmentsAreBetweenSlashes(p: string, q: string, name: string)
    requires SlashFree(name)
    ensures Segments(name) == if name == [] then [] else [name]
    ensures Segments(p + ['/'] + q) == Segments(p) + Segments(q)
  {
    NameSplits(name, '/');
    var none: seq<string> := [];
    assert none + [name] == [name];
    NonEmptyAppends([], name);
    SplitJoins(p, '/', q);
    NonEmptyJoins(Split(p), Split(q));
  }

  // ---------------------------------------------------------------- the order of strings

  predicate AtMost(a: string, b: string) {
    if a == [] then true
    else if b == [] then false
    else a[0] < b[0] || (a[0] == b[0] && AtMost(a[1..], b[1..]))
  }

  // The strings are the same up to k, and there a ends or has the smaller character.
  ghost predicate DiffersAt(a: string, b: string, k: nat) {
    && k <= |a| && k <= |b| && a[..k] == b[..k]
    && (k == |a| || (k < |b| && a[k] < b[k]))
  }

  // The order is that of dictionaries, by code point.
  lemma {:induction false} AtMostIsLexicographic(a: string, b: string)
    ensures AtMost(a, b) <==> exists k: nat :: DiffersAt(a, b, k)
  {
    if a == [] {
      assert DiffersAt(a, b, 0);
    } else if b != [] {
      if a[0] == b[0] {
        AtMostIsLexicographic(a[1..], b[1..]);
        if k: nat :| DiffersAt(a[1..], b[1..], k) {
          assert a[..k + 1] == [a[0]] + a[1..][..k] && b[..k + 1] == [b[0]] + b[1..][..k];
          assert DiffersAt(a, b, k + 1);
        }
        if k: nat :| DiffersAt(a, b, k) {
          assert k > 0;
          assert a[1..][..k - 1] == a[..k][1..] && b[1..][..k - 1] == b[..k][1..];
          assert DiffersAt(a[1..], b[1..], k - 1);
        }
      } else {
        if a[0] < b[0] { assert DiffersAt(a, b, 0); }
        forall k: nat | 0 < k <= |a| && k <= |b| ensures a[..k] != b[..k] {
          assert a[..k][0] != b[..k][0];
        }
      }
    }
  }

  lemma {:induction false} AtMostIsTotal(a: string, b: string)
    ensures AtMost(a, b) || AtMost(b, a)
  {
    if a != [] && b != [] && a[0] == b[0] {
      AtMostIsTotal(a[1..], b[1..]);
    }
  }

  lemma {:induction false} AtMostIsAntisymmetric(a: string, b: string)
    requires AtMost(a, b) && AtMost(b, a)
    ensures a == b
  {
    if a != [] && b != [] {
      AtMostIsAntisymmetric(a[1..], b[1..]);
      assert a == [a[0]] + a[1..] && b == [b[0]] + b[1..];
    }
  }

  lemma {:induction false} AtMostIsTransitive(a: string, b: string, c: string)
    requires AtMost(a, b) && AtMost(b, c)
    ensures AtMost(a, c)
  {
    if a != [] && b != [] && a[0] == b[0] && b[0] == c[0] {
      AtMostIsTransitive(a[1..], b[1..], c[1..]);
    }
  }

  ghost predicate Sorted(s: seq<string>) {
    forall i, j | 0 <= i < j < |s| :: AtMost(s[i], s[j])
  }

  ghost predicate StrictlySorted(s: seq<string>) {
    forall i, j | 0 <= i < j < |s| :: AtMost(s[i], s[j]) && s[i] != s[j]
  }

  // sort.Strings: any sorting procedure would do.
  method SortStrings(s: seq<string>) returns (r: seq<string>)
    ensures Sorted(r) && multiset(r) == multiset(s)
  {
    r := [];
    for i := 0 to |s|
      invariant Sorted(r) && multiset(r) == multiset(s[..i])
    {
      assert s[..i + 1] == s[..i] + [s[i]];
      r := Insert(r, s[i]);
    }
    assert s[..|s|] == s;
  }

  method Insert(s: seq<string>, x: string) returns (r: seq<string>)
    requires Sorted(s)
    ensures Sorted(r) && multiset(r) == multiset(s + [x])
  {
    var k := 0;
    while k < |s| && AtMost(s[k], x)
      invariant k <= |s|
      invariant forall i | 0 <= i < k :: AtMost(s[i], x)
    {
      k := k + 1;
    }
    r := s[..k] + [x] + s[k..];
    assert s == s[..k] + s[k..];
    forall i | k <= i < |s| ensures AtMost(x, s[i]) {
      AtMostIsTotal(s[k], x);
      if i > k { AtMostIsTransitive(x, s[k], s[i]); }
    }
  }
}
