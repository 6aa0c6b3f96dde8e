/** The rules of `config/config.go`: which processes a rule wants, and the name it gives them. */
module Matchers {
  import opened Collections

  // A compiled regular expression: the names of its groups (index 0, "", is the whole match), and what
  // FindStringSubmatch answers, an empty list for no match.
  datatype Regex = Regex(names: seq<string>, find: string -> seq<string>)

  // ---------------------------------------------------------------- paths of executables

  function TrimSlashes(path: string): string {
    if path != [] && path[|path| - 1] == '/' then TrimSlashes(path[..|path| - 1]) else path
  }

  function AfterSlash(path: string): string {
    if path == [] || path[|path| - 1] == '/' then [] else AfterSlash(path[..|path| - 1]) + [path[|path| - 1]]
  }

  // filepath.Base
  function Base(path: string): string {
    if path == [] then "." else
    var p := TrimSlashes(path);
    if p == [] then "/" else AfterSlash(p)
  }

  lemma {:induction false} NoSlashIsItsOwnBase(path: string)
    requires path != [] && '/' !in path
    ensures TrimSlashes(path) == path && AfterSlash(path) == path
  {
    var front, last := path[..|path| - 1], path[|path| - 1];
    assert path == front + [last] && last in path;
    if front != [] {
      NoSlashIsItsOwnBase(front);
    }
  }

  lemma {:induction false} TrimmedEndsInNoSlash(path: string)
    ensures TrimSlashes(path) == [] || TrimSlashes(path)[|TrimSlashes(path)| - 1] != '/'
  {
    if path != [] && path[|path| - 1] == '/' {
      TrimmedEndsInNoSlash(path[..|path| - 1]);
    }
  }

  lemma BaseIsNotEmpty(path: string)
    ensures Base(path) != []
  {
    TrimmedEndsInNoSlash(path);
  }

  ghost predicate Slashes(s: string) {
    forall i | 0 <= i < |s| :: s[i] == '/'
  }

  lemma {:induction false} TrimsSlashes(path: string, slashes: string)
    requires Slashes(slashes) && (path == [] || path[|path| - 1] != '/')
    ensures TrimSlashes(path + slashes) == path
  {
    if slashes == [] {
      assert path + slashes == path;
    } else {
      var front := slashes[..|slashes| - 1];
      assert (path + slashes)[..|path + slashes| - 1] == path + front;
      TrimsSlashes(path, front);
    }
  }

  lemma {:induction false} NameAfterSlash(prefix: string, name: string)
    requires '/' !in name && (prefix == [] || prefix[|prefix| - 1] == '/')
    ensures AfterSlash(prefix + name) == name
  {
    if name == [] {
      assert prefix + name == prefix;
    } else {
      var front, last := name[..|name| - 1], name[|name| - 1];
      assert name == front + [last] && last in name;
      assert (prefix + name)[..|prefix + name| - 1] == prefix + front;
      NameAfterSlash(prefix, front);
    }
  }

  // The base of a path is its last element, whatever slashes follow it; slashes alone are the root, and
  // the empty path is ".".
  lemma BaseIsLastElement(prefix: string, name: string, slashes: string)
    requires '/' !in name && (prefix == [] || prefix[|prefix| - 1] == '/') && Slashes(slashes)
    ensures name != [] ==> Base(prefix + name + slashes) == name
    ensures Base(slashes) == if slashes == [] then "." else "/"
  {
    if name != [] {
      assert (prefix + name)[|prefix + name| - 1] == name[|name| - 1] && name[|name| - 1] in name;
      TrimsSlashes(prefix + name, slashes);
      NameAfterSlash(prefix, name);
    }
    TrimsSlashes([], slashes);
    assert [] + slashes == slashes;
  }

  // ---------------------------------------------------------------- the exe index

  // The loop of ToConfig over the exe rules: later rules replace earlier ones under the same key.
  function Key(rule: string): string {
    if '/' in rule then Base(rule) else rule
  }

  function FullPath(rule: string): string {
    if '/' in rule then rule else ""
  }

  function ExeIndex(rules: seq<string>): map<string, string> {
    IndexBy(Key, FullPath, rules)
  }

  // exeMatcher.Match
  predicate ExeMatches(exes: map<string, string>, cmdline: seq<string>) {
    && cmdline != []
    && Base(cmdline[0]) in exes
    && (exes[Base(cmdline[0])] == "" || exes[Base(cmdline[0])] == cmdline[0])
  }

  // What the documentation says of one exe rule: with a slash argv[0] must be equal, without one only its
  // base name.
  predicate RuleAccepts(rule: string, argv0: string) {
    if '/' in rule then argv0 == rule else Base(argv0) == rule
  }

  ghost predicate IsLast(rules: seq<string>, i: nat) {
    IsLastOf(Key, rules, i)
  }

  // The matcher accepts argv[0] exactly when the last rule with its base name accepts it.
  lemma IndexAsksLastRule(rules: seq<string>, cmdline: seq<string>)
    ensures ExeMatches(ExeIndex(rules), cmdline) <==>
            cmdline != [] && exists i: nat ::
              IsLast(rules, i) && Key(rules[i]) == Base(cmdline[0]) && RuleAccepts(rules[i], cmdline[0])
  {
    if cmdline != [] {
      var key := Base(cmdline[0]);
      IndexHoldsLast(Key, FullPath, rules, key);
      if i: nat :| IsLast(rules, i) && Key(rules[i]) == key {
        assert ExeIndex(rules)[key] == FullPath(rules[i]);
        assert RuleAccepts(rules[i], cmdline[0]) <==> ExeIndex(rules)[key] == "" || ExeIndex(rules)[key] == cmdline[0];
      }
    }
  }

  // The documented meaning of the list: any of the rules.
  ghost predicate AnyRuleAccepts(rules: seq<string>, cmdline: seq<string>) {
    cmdline != [] && exists i :: 0 <= i < |rules| && RuleAccepts(rules[i], cmdline[0])
  }

  // Rule i is shadowed: a later rule of the same base name is a full path, and not the same one.
  ghost predicate Shadowed(rules: seq<string>, i: nat, j: nat) {
    i < |rules| && IsLast(rules, j) && Key(rules[i]) == Key(rules[j]) && '/' in rules[j] && rules[i] != rules[j]
  }

  lemma LastOf(rules: seq<string>, i: nat) returns (j: nat)
    requires i < |rules|
    ensures i <= j && IsLast(rules, j) && Key(rules[j]) == Key(rules[i])
    decreases |rules| - i
  {
    if k :| i < k < |rules| && Key(rules[k]) == Key(rules[i]) {
      j := LastOf(rules, k);
    } else {
      j := i;
    }
  }

  // The index agrees with the documented OR on every command line exactly when no rule is shadowed.
  lemma IndexIsAnyRuleIff(rules: seq<string>)
    ensures (forall cmdline :: ExeMatches(ExeIndex(rules), cmdline) <==> AnyRuleAccepts(rules, cmdline))
            <==> (forall i: nat, j: nat :: !Shadowed(rules, i, j))
  {
    if i: nat, j: nat :| Shadowed(rules, i, j) {
      ShadowedIsLost(rules, i, j);
    } else {
      forall cmdline ensures ExeMatches(ExeIndex(rules), cmdline) <==> AnyRuleAccepts(rules, cmdline) {
        UnshadowedAgrees(rules, cmdline);
      }
    }
  }

  lemma ShadowedIsLost(rules: seq<string>, i: nat, j: nat)
    requires Shadowed(rules, i, j)
    ensures AnyRuleAccepts(rules, [rules[i]]) && !ExeMatches(ExeIndex(rules), [rules[i]])
  {
    var argv0 := rules[i];
    BaseIsNotEmpty(rules[j]);
    if '/' !in argv0 { NoSlashIsItsOwnBase(argv0); }
    assert RuleAccepts(rules[i], argv0);
    assert [argv0][0] == argv0;
    IndexHoldsLast(Key, FullPath, rules, Base(argv0));
    assert Key(rules[j]) == Base(argv0);
    assert ExeIndex(rules)[Base(argv0)] == rules[j];
  }

  lemma UnshadowedAgrees(rules: seq<string>, cmdline: seq<string>)
    requires forall i: nat, j: nat :: !Shadowed(rules, i, j)
    ensures ExeMatches(ExeIndex(rules), cmdline) <==> AnyRuleAccepts(rules, cmdline)
  {
    IndexAsksLastRule(rules, cmdline);
    if cmdline != [] {
      var argv0 := cmdline[0];
      if i :| 0 <= i < |rules| && RuleAccepts(rules[i], argv0) {
        var j := LastOf(rules, i);
        assert !Shadowed(rules, i, j);
        BaseOfAccepted(rules[i], argv0);
        assert Key(rules[j]) == Base(argv0) && RuleAccepts(rules[j], argv0);
      }
    }
  }

  lemma BaseOfAccepted(rule: string, argv0: string)
    requires RuleAccepts(rule, argv0)
    ensures Key(rule) == Base(argv0)
  {
  }

  method BuildExeIndex(rules: seq<string>) returns (exes: map<string, string>)
    ensures exes == ExeIndex(rules)
  {
    exes := map[];
    for i := 0 to |rules|
      invariant exes == ExeIndex(rules[..i])
    {
      assert rules[..i + 1][..i] == rules[..i];
      var e := rules[i];
      if '/' in e {
        exes := exes[Base(e) := e];
      } else {
        exes := exes[e := ""];
      }
    }
    assert rules[..|rules|] == rules;
  }
}
