/** The pieces of text the cgroup parsers take apart: white space, cuts, fields, lines and numbers. */
module StatText {
  import opened Wrappers
  import opened Counters
  import opened Paths

  // ---------------------------------------------------------------- white space

  // unicode.IsSpace
  predicate IsSpace(c: char) {
    || c in "\t\n\r "
    || c as int in {0x0B, 0x0C, 0x85, 0xA0, 0x1680, 0x2028, 0x2029, 0x202F, 0x205F, 0x3000}
    || 0x2000 <= c as int <= 0x200A
  }

  predicate Solid(s: string) {
    forall i | 0 <= i < |s| :: !IsSpace(s[i])
  }

  predicate Blank(s: string) {
    forall i | 0 <= i < |s| :: IsSpace(s[i])
  }

  function TrimLeft(s: string): string {
    if s != [] && IsSpace(s[0]) then TrimLeft(s[1..]) else s
  }

  function TrimRight(s: string): string {
    if s != [] && IsSpace(s[|s| - 1]) then TrimRight(s[..|s| - 1]) else s
  }

  function TrimSpace(s: string): string {
    TrimRight(TrimLeft(s))
  }

  lemma {:induction false} BlankTrimsAway(s: string)
    requires Blank(s)
    ensures TrimSpace(s) == []
  {
    if s != [] {
      BlankTrimsAway(s[1..]);
    }
  }

  lemma TrimKeeps(s: string)
    requires s != [] ==> !IsSpace(s[0]) && !IsSpace(s[|s| - 1])
    ensures TrimSpace(s) == s
  {
  }

  // Below 128, white space is the tab, the three line and page breaks, the carriage return and the blank.
  lemma SpacesOfASCII(c: char)
    requires c as int < 128
    ensures IsSpace(c) <==> 9 <= c as int <= 13 || c as int == 32
  {
  }

  lemma {:induction false} TrimsLeft(a: string, s: string)
    requires Blank(a) && s != [] && !IsSpace(s[0])
    ensures TrimLeft(a + s) == s
  {
    if a == [] {
      assert a + s == s;
    } else {
      assert (a + s)[1..] == a[1..] + s;
      TrimsLeft(a[1..], s);
    }
  }

  lemma {:induction false} TrimsRight(s: string, b: string)
    requires Blank(b) && s != [] && !IsSpace(s[|s| - 1])
    ensures TrimRight(s + b) == s
  {
    if b == [] {
      assert s + b == s;
    } else {
      assert (s + b)[..|s + b| - 1] == s + b[..|b| - 1];
      TrimsRight(s, b[..|b| - 1]);
    }
  }

  // Trimming takes the white space off both ends and nothing else.
  lemma TrimsBlanks(a: string, s: string, b: string)
    requires Blank(a) && Blank(b) && s != [] && !IsSpace(s[0]) && !IsSpace(s[|s| - 1])
    ensures TrimSpace(a + s + b) == s
  {
    assert a + s + b == a + (s + b) && (s + b)[0] == s[0];
    TrimsLeft(a, s + b);
    TrimsRight(s, b);
  }

  // ---------------------------------------------------------------- cuts and fields

  // strings.Cut at the first separator; None when there is none.
  function Cut(s: string, sep: char): Option<(string, string)> {
    if s == [] then None
    else if s[0] == sep then Some(([], s[1..]))
    else match Cut(s[1..], sep)
      case Some((key, val)) => Some(([s[0]] + key, val))
      case None => None
  }

  lemma {:induction false} CutsAtFirst(key: string, sep: char, val: string)
    requires sep !in key
    ensures Cut(key + [sep] + val, sep) == Some((key, val))
  {
    var s := key + [sep] + val;
    if key != [] {
      assert key == [key[0]] + key[1..] && s[1..] == key[1..] + [sep] + val;
      CutsAtFirst(key[1..], sep, val);
      assert s[0] == key[0] && key[0] in key;
    } else {
      assert s[1..] == val;
    }
  }

  lemma {:induction false} NoCutIff(s: string, sep: char)
    ensures Cut(s, sep).None? <==> sep !in s
  {
    if s != [] {
      NoCutIff(s[1..], sep);
      assert s == [s[0]] + s[1..];
    }
  }

  // strings.Fields: the maximal runs without white space.
  function Fields(s: string): (fs: seq<string>)
    ensures s != [] && !IsSpace(s[|s| - 1]) ==> fs != []
  {
    if s == [] then [] else
    var front, c := Fields(s[..|s| - 1]), s[|s| - 1];
    if IsSpace(c) then front
    else if |s| == 1 || IsSpace(s[|s| - 2]) then front + [[c]]
    else front[..|front| - 1] + [front[|front| - 1] + [c]]
  }

  lemma FieldsOpens(p: string, c: char)
    requires !IsSpace(c) && (p == [] || IsSpace(p[|p| - 1]))
    ensures Fields(p + [c]) == Fields(p) + [[c]]
  {
    var s := p + [c];
    assert s[..|s| - 1] == p;
    assert |s| > 1 ==> s[|s| - 2] == p[|p| - 1];
  }

  lemma FieldsGrows(p: string, c: char)
    requires !IsSpace(c) && p != [] && !IsSpace(p[|p| - 1])
    ensures var fs := Fields(p);
      Fields(p + [c]) == fs[..|fs| - 1] + [fs[|fs| - 1] + [c]]
  {
    var s := p + [c];
    assert s[..|s| - 1] == p && s[|s| - 2] == p[|p| - 1];
  }

  lemma {:induction false} FieldsAppends(p: string, word: string)
    requires word != [] && Solid(word)
    requires p == [] || IsSpace(p[|p| - 1])
    ensures Fields(p + word) == Fields(p) + [word]
  {
    var front, c := word[..|word| - 1], word[|word| - 1];
    assert word == front + [c];
    assert p + word == p + front + [c];
    if front == [] {
      assert p + front == p;
      FieldsOpens(p, c);
    } else {
      FieldsAppends(p, front);
      assert (p + front)[|p + front| - 1] == front[|front| - 1] == word[|word| - 2];
      FieldsGrows(p + front, c);
    }
  }

  lemma FieldsSkipSpace(p: string, c: char)
    requires IsSpace(c)
    ensures Fields(p + [c]) == Fields(p)
  {
    assert (p + [c])[..|p|] == p;
  }

  lemma {:induction false} FieldsSkipBlanks(p: string, blanks: string)
    requires Blank(blanks)
    ensures Fields(p + blanks) == Fields(p)
  {
    if blanks == [] {
      assert p + blanks == p;
    } else {
      var front, c := blanks[..|blanks| - 1], blanks[|blanks| - 1];
      FieldsSkipBlanks(p, front);
      FieldsSkipSpace(p + front, c);
      assert p + blanks == p + front + [c];
    }
  }

  // The fields of a text are its words: white space of any kind and length ends one, and a word after white
  // space is one more.
  lemma FieldsAreWords(p: string, blanks: string, word: string)
    requires Blank(blanks) && word != [] && Solid(word) && (p != [] ==> blanks != [])
    ensures Fields([]) == []
    ensures Fields(p + blanks) == Fields(p)
    ensures Fields(p + blanks + word) == Fields(p) + [word]
  {
    FieldsSkipBlanks(p, blanks);
    FieldsAppends(p + blanks, word);
  }

  // ---------------------------------------------------------------- lines

  function DropCR(line: string): string {
    if line != [] && line[|line| - 1] == '\r' then line[..|line| - 1] else line
  }

  function DropCRs(lines: seq<string>): seq<string> {
    seq(|lines|, i requires 0 <= i < |lines| => DropCR(lines[i]))
  }

  // The lines a bufio.Scanner delivers: what follows the last newline counts unless it is empty.
  function Lines(content: string): seq<string> {
    var parts := SplitBy(content, '\n');
    DropCRs(if parts[|parts| - 1] == [] then parts[..|parts| - 1] else parts)
  }

  function JoinLines(lines: seq<string>): string {
    if lines == [] then [] else JoinLines(lines[..|lines| - 1]) + lines[|lines| - 1] + ['\n']
  }

  predicate IsLine(s: string) {
    '\n' !in s && (s == [] || s[|s| - 1] != '\r')
  }

  lemma {:induction false} AppendToLast(p: string, line: string)
    requires '\n' !in line
    ensures var parts := SplitBy(p, '\n');
      SplitBy(p + line, '\n') == parts[..|parts| - 1] + [parts[|parts| - 1] + line]
  {
    if line == [] {
      var parts := SplitBy(p, '\n');
      var last := parts[|parts| - 1];
      assert p + line == p && last + line == last;
      assert parts == parts[..|parts| - 1] + [last];
    } else {
      var front, c := line[..|line| - 1], line[|line| - 1];
      assert line == front + [c] && c in line;
      AppendToLast(p, front);
      assert (p + line)[..|p + line| - 1] == p + front;
      var last := SplitBy(p, '\n')[|SplitBy(p, '\n')| - 1];
      assert last + front + [c] == last + line;
    }
  }

  lemma NoCRsToDrop(lines: seq<string>)
    requires forall i | 0 <= i < |lines| :: IsLine(lines[i])
    ensures DropCRs(lines) == lines
  {
    assert forall i | 0 <= i < |lines| :: DropCR(lines[i]) == lines[i];
  }

  lemma {:induction false} SplitOfText(lines: seq<string>)
    requires forall i | 0 <= i < |lines| :: '\n' !in lines[i]
    ensures SplitBy(JoinLines(lines), '\n') == lines + [[]]
  {
    if lines != [] {
      var front, line := lines[..|lines| - 1], lines[|lines| - 1];
      SplitOfText(front);
      AppendToLast(JoinLines(front), line);
      assert (front + [[]])[..|front|] == front && [] + line == line;
      assert SplitBy(JoinLines(front) + line, '\n') == front + [line] == lines;
      SplitAppends(JoinLines(front) + line, '\n', []);
      assert JoinLines(lines) == JoinLines(front) + line + ['\n'] + [];
    }
  }

  // Any text is read line by line, each without the carriage return before its newline; what follows the last
  // newline is a line too, unless it is empty.
  lemma LinesOfText(lines: seq<string>, last: string)
    requires (forall i | 0 <= i < |lines| :: '\n' !in lines[i]) && '\n' !in last
    ensures Lines(JoinLines(lines) + last) == DropCRs(if last == [] then lines else lines + [last])
  {
    SplitOfText(lines);
    AppendToLast(JoinLines(lines), last);
    var parts := SplitBy(JoinLines(lines) + last, '\n');
    assert (lines + [[]])[..|lines|] == lines && [] + last == last;
    assert parts == lines + [last] && parts[..|parts| - 1] == lines;
  }

  // Scanning joined lines gives them back.
  lemma LinesOfJoined(lines: seq<string>)
    requires forall i | 0 <= i < |lines| :: IsLine(lines[i])
    ensures Lines(JoinLines(lines)) == lines
  {
    LinesOfText(lines, []);
    assert JoinLines(lines) + [] == JoinLines(lines);
    NoCRsToDrop(lines);
  }

  lemma DropsOneCR(line: string)
    ensures DropCR(line + ['\r']) == line
    ensures (line == [] || line[|line| - 1] != '\r') ==> DropCR(line) == line
  {
  }

  // ---------------------------------------------------------------- numbers

  predicate IsDigit(c: char) {
    '0' <= c <= '9'
  }

  predicate AllDigits(s: string) {
    forall i | 0 <= i < |s| :: IsDigit(s[i])
  }

  function Value(s: string): nat
    requires AllDigits(s)
  {
    if s == [] then 0 else 10 * Value(s[..|s| - 1]) + (s[|s| - 1] as int - '0' as int)
  }

  // strconv.ParseUint(s, 10, 64): None for a syntax or a range error.
  function ParseUint(s: string): Option<u64> {
    if s != [] && AllDigits(s) && Value(s) < TWO_64 then Some(Value(s)) else None
  }

  function Digit(d: nat): char
    requires d < 10
  {
    ('0' as int + d) as char
  }

  function Decimal(n: nat): string {
    if n < 10 then [Digit(n)] else Decimal(n / 10) + [Digit(n % 10)]
  }

  lemma {:induction false} DecimalHasValue(n: nat)
    ensures Decimal(n) != [] && AllDigits(Decimal(n)) && Value(Decimal(n)) == n
  {
    if n >= 10 {
      DecimalHasValue(n / 10);
      var s := Decimal(n);
      assert s[..|s| - 1] == Decimal(n / 10);
    } else {
      assert [Digit(n)][..0] == [];
    }
  }

  // A printed number is read back, and one past 2^64 - 1 is rejected.
  lemma ParseUintOfDecimal(n: nat)
    ensures ParseUint(Decimal(n)) == if n < TWO_64 then Some(n) else None
  {
    DecimalHasValue(n);
  }

  function Zeros(n: nat): string {
    seq(n, i => '0')
  }

  lemma {:induction false} ZerosAddNothing(n: nat, s: string)
    requires AllDigits(s)
    ensures AllDigits(Zeros(n) + s) && Value(Zeros(n) + s) == Value(s)
  {
    if s == [] {
      assert Zeros(n) + s == Zeros(n);
      if n > 0 {
        assert Zeros(n)[..n - 1] == Zeros(n - 1) && Zeros(n - 1) + [] == Zeros(n - 1);
        ZerosAddNothing(n - 1, []);
      }
    } else {
      assert (Zeros(n) + s)[..|Zeros(n) + s| - 1] == Zeros(n) + s[..|s| - 1];
      ZerosAddNothing(n, s[..|s| - 1]);
    }
  }

  // Every text of digits is a decimal with zeros before it.
  lemma {:induction false} DigitsAreDecimal(s: string) returns (z: nat)
    requires s != [] && AllDigits(s)
    ensures s == Zeros(z) + Decimal(Value(s))
  {
    var front, c := s[..|s| - 1], s[|s| - 1];
    assert s == front + [c];
    var d := c as int - '0' as int;
    assert Digit(d) == c;
    if front == [] {
      z := 0;
      assert Zeros(0) == [] && Value(front) == 0;
    } else {
      z := DigitsAreDecimal(front);
      if Value(front) == 0 {
        assert Decimal(Value(front)) == ['0'] && Zeros(z) + ['0'] == Zeros(z + 1);
        z := z + 1;
      } else {
        assert (10 * Value(front) + d) / 10 == Value(front) && (10 * Value(front) + d) % 10 == d;
        assert Decimal(Value(s)) == Decimal(Value(front)) + [c];
      }
    }
  }

  // Exactly the decimals below 2^64 are numbers, zeros before them or not.
  lemma ParseUintIff(s: string, n: u64)
    ensures ParseUint(s) == Some(n) <==> exists z: nat :: s == Zeros(z) + Decimal(n)
  {
    if ParseUint(s) == Some(n) {
      var z := DigitsAreDecimal(s);
    }
    if z: nat :| s == Zeros(z) + Decimal(n) {
      DecimalHasValue(n);
      ZerosAddNothing(z, Decimal(n));
    }
  }

  lemma DecimalIsSolid(n: nat)
    ensures Solid(Decimal(n)) && '\n' !in Decimal(n) && '=' !in Decimal(n)
  {
    DecimalHasValue(n);
    var s := Decimal(n);
    forall i | 0 <= i < |s| ensures !IsSpace(s[i]) && s[i] != '\n' && s[i] != '=' {
      assert IsDigit(s[i]);
    }
  }
}
