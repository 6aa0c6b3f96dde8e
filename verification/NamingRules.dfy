/** How a rule names a process (`matchNamer` and `FirstMatcher` in `config/config.go`).

    A cmdline matcher keeps its captures in one map that lives across processes, and writes to it even
    when a later expression then fails to match. `NameOf` says what name a rule gives to a process with
    no such memory; the methods, whatever was in the maps before, answer the same. */
module NamingRules {
  import opened Wrappers
  import opened Process
  import opened Collections
  import opened Matchers

  type Captures = map<string, string>

  // ---------------------------------------------------------------- rules without memory

  datatype Rule = CommRule(comms: set<string>) | ExeRule(exes: map<string, string>) | CmdlineRule(regexes: seq<Regex>)

  datatype TemplateParams = TemplateParams(
    comm: string, cgroups: seq<string>, exeBase: string, exeFull: string, matches: Captures,
    username: string, pid: int, startTime: Time)

  // All selectors must match; the template renders the name.
  datatype NamingRule = NamingRule(rules: seq<Rule>, template: TemplateParams -> string)

  // strings.Join(cmdline, " ")
  function Line(cmdline: seq<string>): string {
    if cmdline == [] then [] else
    if |cmdline| == 1 then cmdline[0] else Line(cmdline[..|cmdline| - 1]) + " " + cmdline[|cmdline| - 1]
  }

  predicate Finds(r: Regex, line: string) {
    |r.find(line)| == |r.names|
  }

  function Write(m: Captures, names: seq<string>, values: seq<string>): Captures
    requires |names| == |values|
  {
    if names == [] then m else
    Write(m, names[..|names| - 1], values[..|values| - 1])[names[|names| - 1] := values[|values| - 1]]
  }

  predicate FindsAll(regexes: seq<Regex>, line: string) {
    forall i | 0 <= i < |regexes| :: Finds(regexes[i], line)
  }

  // The captures after all expressions matched, starting from m.
  function Capture(m: Captures, regexes: seq<Regex>, line: string): Captures
    requires FindsAll(regexes, line)
  {
    if regexes == [] then m else
    var r := regexes[|regexes| - 1];
    Write(Capture(m, regexes[..|regexes| - 1], line), r.names, r.find(line))
  }

  predicate Accepts(rule: Rule, nacl: ProcAttributes) {
    match rule
    case CommRule(comms) => nacl.name in comms
    case ExeRule(exes) => ExeMatches(exes, nacl.cmdline)
    case CmdlineRule(regexes) => FindsAll(regexes, Line(nacl.cmdline))
  }

  function CapturesOf(rule: Rule, nacl: ProcAttributes): Captures
    requires Accepts(rule, nacl)
  {
    match rule
    case CmdlineRule(regexes) => Capture(map[], regexes, Line(nacl.cmdline))
    case _ => map[]
  }

  predicate AcceptsAll(rules: seq<Rule>, nacl: ProcAttributes) {
    forall i | 0 <= i < |rules| :: Accepts(rules[i], nacl)
  }

  function AllCaptures(rules: seq<Rule>, nacl: ProcAttributes): Captures
    requires AcceptsAll(rules, nacl)
  {
    if rules == [] then map[] else AllCaptures(rules[..|rules| - 1], nacl) + CapturesOf(rules[|rules| - 1], nacl)
  }

  function Params(nacl: ProcAttributes, matches: Captures): TemplateParams {
    var exeFull := if nacl.cmdline != [] then nacl.cmdline[0] else nacl.name;
    var exeBase := if nacl.cmdline != [] then Base(nacl.cmdline[0]) else nacl.name;
    TemplateParams(nacl.name, nacl.cgroups, exeBase, exeFull, matches, nacl.username, nacl.pid, nacl.startTime)
  }

  function NameOf(rule: NamingRule, nacl: ProcAttributes): Option<string> {
    if AcceptsAll(rule.rules, nacl)
    then Some(rule.template(Params(nacl, AllCaptures(rule.rules, nacl))))
    else None
  }

  // The first listed rule that matches.
  function FirstName(rules: seq<NamingRule>, nacl: ProcAttributes): Option<string> {
    if rules == [] then None
    else if NameOf(rules[0], nacl).Some? then NameOf(rules[0], nacl)
    else FirstName(rules[1..], nacl)
  }

  lemma {:induction false} FirstNameIsFirst(rules: seq<NamingRule>, nacl: ProcAttributes)
    ensures FirstName(rules, nacl).None? <==> forall i | 0 <= i < |rules| :: NameOf(rules[i], nacl).None?
    ensures FirstName(rules, nacl).Some? ==>
      exists i :: 0 <= i < |rules| && NameOf(rules[i], nacl) == FirstName(rules, nacl)
                  && forall j | 0 <= j < i :: NameOf(rules[j], nacl).None?
  {
    if rules != [] && NameOf(rules[0], nacl).None? {
      FirstNameIsFirst(rules[1..], nacl);
      assert forall i | 0 < i < |rules| :: rules[i] == rules[1..][i - 1];
      if FirstName(rules, nacl).Some? {
        var i :| 0 <= i < |rules[1..]| && NameOf(rules[1..][i], nacl) == FirstName(rules, nacl)
                 && forall j | 0 <= j < i :: NameOf(rules[1..][j], nacl).None?;
        assert NameOf(rules[i + 1], nacl) == FirstName(rules, nacl);
        forall j | 0 <= j < i + 1 ensures NameOf(rules[j], nacl).None? {
          if j > 0 { assert rules[j] == rules[1..][j - 1]; }
        }
      }
    }
  }

  // ---------------------------------------------------------------- what a name is made of

  // A command line is its words with a space between any two.
  lemma {:induction false} LineJoins(a: seq<string>, b: seq<string>)
    requires a != [] && b != []
    ensures Line(a + b) == Line(a) + " " + Line(b)
    ensures |b| == 1 ==> Line(b) == b[0]
  {
    var front, word := b[..|b| - 1], b[|b| - 1];
    assert (a + b)[..|a + b| - 1] == a + front;
    if front == [] {
      assert a + front == a;
    } else {
      LineJoins(a, front);
    }
  }

  // The groups of a match by name, in order.
  function GroupsOf(names: seq<string>, values: seq<string>): seq<(string, string)>
    requires |names| == |values|
  {
    seq(|names|, i requires 0 <= i < |names| => (names[i], values[i]))
  }

  function GroupsOfAll(regexes: seq<Regex>, line: string): seq<(string, string)>
    requires FindsAll(regexes, line)
  {
    if regexes == [] then [] else
    var r := regexes[|regexes| - 1];
    GroupsOfAll(regexes[..|regexes| - 1], line) + GroupsOf(r.names, r.find(line))
  }

  // Only cmdline selectors capture.
  function GroupsOfRule(rule: Rule, nacl: ProcAttributes): seq<(string, string)>
    requires Accepts(rule, nacl)
  {
    match rule case CmdlineRule(regexes) => GroupsOfAll(regexes, Line(nacl.cmdline)) case _ => []
  }

  // The groups of all selectors, in order.
  function GroupsOfRules(rules: seq<Rule>, nacl: ProcAttributes): seq<(string, string)>
    requires AcceptsAll(rules, nacl)
  {
    if rules == [] then [] else
    GroupsOfRules(rules[..|rules| - 1], nacl) + GroupsOfRule(rules[|rules| - 1], nacl)
  }

  function GroupName(group: (string, string)): string {
    group.0
  }

  function GroupValue(group: (string, string)): string {
    group.1
  }

  lemma {:induction false} WritesGroups(m: Captures, names: seq<string>, values: seq<string>)
    requires |names| == |values|
    ensures Write(m, names, values) == m + IndexBy(GroupName, GroupValue, GroupsOf(names, values))
  {
    if names != [] {
      var n := |names| - 1;
      WritesGroups(m, names[..n], values[..n]);
      assert GroupsOf(names, values)[..n] == GroupsOf(names[..n], values[..n]);
    }
  }

  lemma {:induction false} CapturesGroups(m: Captures, regexes: seq<Regex>, line: string)
    requires FindsAll(regexes, line)
    ensures Capture(m, regexes, line) == m + IndexBy(GroupName, GroupValue, GroupsOfAll(regexes, line))
  {
    if regexes != [] {
      var front, r := regexes[..|regexes| - 1], regexes[|regexes| - 1];
      CapturesGroups(m, front, line);
      var before, now := GroupsOfAll(front, line), GroupsOf(r.names, r.find(line));
      WritesGroups(Capture(m, front, line), r.names, r.find(line));
      IndexByJoins(GroupName, GroupValue, before, now);
      OverridesAssociate(m, IndexBy(GroupName, GroupValue, before), IndexBy(GroupName, GroupValue, now));
    }
  }

  lemma RuleCapturesGroups(rule: Rule, nacl: ProcAttributes)
    requires Accepts(rule, nacl)
    ensures CapturesOf(rule, nacl) == IndexBy(GroupName, GroupValue, GroupsOfRule(rule, nacl))
  {
    if rule.CmdlineRule? {
      CapturesGroups(map[], rule.regexes, Line(nacl.cmdline));
    }
  }

  lemma {:induction false} RulesCaptureGroups(rules: seq<Rule>, nacl: ProcAttributes)
    requires AcceptsAll(rules, nacl)
    ensures AllCaptures(rules, nacl) == IndexBy(GroupName, GroupValue, GroupsOfRules(rules, nacl))
  {
    if rules != [] {
      var front, last := rules[..|rules| - 1], rules[|rules| - 1];
      RulesCaptureGroups(front, nacl);
      RuleCapturesGroups(last, nacl);
      IndexByJoins(GroupName, GroupValue, GroupsOfRules(front, nacl), GroupsOfRule(last, nacl));
    }
  }

  // Under each name the template sees the last group of that name, over all selectors and expressions.
  ghost predicate LastGroups(matches: Captures, groups: seq<(string, string)>) {
    && (forall i: nat | IsLastOf(GroupName, groups, i) ::
          groups[i].0 in matches && matches[groups[i].0] == groups[i].1)
    && forall name :: name in matches ==> exists i: nat :: IsLastOf(GroupName, groups, i) && groups[i].0 == name
  }

  // Whether one selector accepts the process.
  ghost predicate Selects(rule: Rule, nacl: ProcAttributes) {
    match rule
    case CommRule(comms) => exists comm :: comm in comms && comm == nacl.name
    case ExeRule(exes) =>
      && |nacl.cmdline| > 0
      && Lookup(exes, Base(nacl.cmdline[0])) in {Some(""), Some(nacl.cmdline[0])}
    case CmdlineRule(regexes) =>
      forall r | r in regexes :: |r.find(Line(nacl.cmdline))| == |r.names|
  }

  // A rule names a process exactly when all its selectors accept it; the name is the template, rendered with
  // the process's own attributes, argv[0] and its last element (or the process name when there is no command
  // line), and the last capture of each name.
  lemma NameIsRendered(rule: NamingRule, nacl: ProcAttributes)
    ensures NameOf(rule, nacl).Some? <==> forall i | 0 <= i < |rule.rules| :: Selects(rule.rules[i], nacl)
    ensures NameOf(rule, nacl).Some? ==>
      AcceptsAll(rule.rules, nacl) && exists params: TemplateParams ::
        && NameOf(rule, nacl) == Some(rule.template(params))
        && params.comm == nacl.name && params.cgroups == nacl.cgroups && params.username == nacl.username
        && params.pid == nacl.pid && params.startTime == nacl.startTime
        && (if nacl.cmdline == [] then params.exeFull == nacl.name == params.exeBase
            else params.exeFull == nacl.cmdline[0] && params.exeBase == Base(nacl.cmdline[0]))
        && LastGroups(params.matches, GroupsOfRules(rule.rules, nacl))
  {
    forall i | 0 <= i < |rule.rules| ensures Accepts(rule.rules[i], nacl) <==> Selects(rule.rules[i], nacl) {
      AcceptsIffSelects(rule.rules[i], nacl);
    }
    if NameOf(rule, nacl).Some? {
      var groups, matches := GroupsOfRules(rule.rules, nacl), AllCaptures(rule.rules, nacl);
      RulesCaptureGroups(rule.rules, nacl);
      forall name
        ensures name in matches ==> exists i: nat :: IsLastOf(GroupName, groups, i) && groups[i].0 == name
        ensures forall i: nat | IsLastOf(GroupName, groups, i) && groups[i].0 == name ::
                  name in matches && matches[name] == groups[i].1
      {
        IndexHoldsLast(GroupName, GroupValue, groups, name);
      }
      var params := Params(nacl, matches);
      assert NameOf(rule, nacl) == Some(rule.template(params));
    }
  }

  lemma AcceptsIffSelects(rule: Rule, nacl: ProcAttributes)
    ensures Accepts(rule, nacl) <==> Selects(rule, nacl)
  {
    if rule.CmdlineRule? {
      forall i | 0 <= i < |rule.regexes| ensures rule.regexes[i] in rule.regexes {}
    }
  }

  // ---------------------------------------------------------------- what was in the map before

  ghost function NamesOf(regexes: seq<Regex>): set<string> {
    set r, name | r in regexes && name in r.names :: name
  }

  lemma {:induction false} WriteKeys(m: Captures, names: seq<string>, values: seq<string>)
    requires |names| == |values|
    ensures Write(m, names, values).Keys == m.Keys + set name | name in names
  {
    if names != [] {
      WriteKeys(m, names[..|names| - 1], values[..|values| - 1]);
      assert names == names[..|names| - 1] + [names[|names| - 1]];
    }
  }

  // Two maps that agree on some names agree on them and on the names written.
  lemma {:induction false} WriteAgrees(m: Captures, m2: Captures, known: set<string>, names: seq<string>,
                                       values: seq<string>)
    requires |names| == |values|
    requires forall k | k in known :: k in m && k in m2 && m[k] == m2[k]
    ensures forall k | k in known || k in names ::
              k in Write(m, names, values) && k in Write(m2, names, values)
                && Write(m, names, values)[k] == Write(m2, names, values)[k]
  {
    if names != [] {
      WriteAgrees(m, m2, known, names[..|names| - 1], values[..|values| - 1]);
      assert names == names[..|names| - 1] + [names[|names| - 1]];
    }
  }

  // After a full match, every named capture is this process's: nothing of m is left under those names.
  lemma {:induction false} CaptureForgets(m: Captures, m2: Captures, regexes: seq<Regex>, line: string)
    requires FindsAll(regexes, line)
    ensures Capture(m, regexes, line).Keys == m.Keys + NamesOf(regexes)
    ensures forall name | name in NamesOf(regexes) ::
              && name in Capture(m, regexes, line) && name in Capture(m2, regexes, line)
              && Capture(m, regexes, line)[name] == Capture(m2, regexes, line)[name]
  {
    if regexes != [] {
      var front, r := regexes[..|regexes| - 1], regexes[|regexes| - 1];
      assert regexes == front + [r];
      CaptureForgets(m, m2, front, line);
      WriteKeys(Capture(m, front, line), r.names, r.find(line));
      WriteAgrees(Capture(m, front, line), Capture(m2, front, line), NamesOf(front), r.names, r.find(line));
      NamesOfAppend(front, r);
    }
  }

  lemma NamesOfAppend(front: seq<Regex>, r: Regex)
    ensures NamesOf(front + [r]) == NamesOf(front) + set name | name in r.names
  {
    forall name | name in NamesOf(front) ensures name in NamesOf(front + [r]) {
      var x :| x in front && name in x.names;
      assert x in front + [r];
    }
    forall name | name in r.names ensures name in NamesOf(front + [r]) {
      assert r in front + [r];
    }
  }

  lemma CaptureIsFresh(m: Captures, regexes: seq<Regex>, line: string)
    requires FindsAll(regexes, line) && m.Keys <= NamesOf(regexes)
    ensures Capture(m, regexes, line) == Capture(map[], regexes, line)
  {
    CaptureForgets(m, map[], regexes, line);
    CaptureForgets(map[], m, regexes, line);
  }

  // ---------------------------------------------------------------- the matchers with memory

  class CmdlineMatcher {
    const regexes: seq<Regex>
    var captures: Captures

    ghost predicate Valid()
      reads this
    {
      captures.Keys <= NamesOf(regexes)
    }

    constructor (regexes: seq<Regex>)
      ensures this.regexes == regexes && captures == map[] && Valid()
    {
      this.regexes := regexes;
      captures := map[];
    }

    // The map may be left half-written when the answer is no.
    method Match(nacl: ProcAttributes) returns (matched: bool)
      requires Valid()
      modifies this
      ensures Valid()
      ensures matched <==> FindsAll(regexes, Line(nacl.cmdline))
      ensures matched ==> captures == Capture(map[], regexes, Line(nacl.cmdline))
    {
      var line := Line(nacl.cmdline);
      ghost var before := captures;
      for i := 0 to |regexes|
        invariant FindsAll(regexes[..i], line)
        invariant captures == Capture(before, regexes[..i], line)
        invariant Valid()
      {
        var r := regexes[i];
        assert regexes[..i + 1] == regexes[..i] + [r] && r in regexes;
        var found := r.find(line);
        if |r.names| != |found| {
          return false;
        }
        WriteCaptures(r.names, found);
        WriteKeys(Capture(before, regexes[..i], line), r.names, found);
      }
      assert regexes[..|regexes|] == regexes;
      CaptureIsFresh(before, regexes, line);
      return true;
    }

    method WriteCaptures(names: seq<string>, found: seq<string>)
      requires |names| == |found|
      modifies this
      ensures captures == Write(old(captures), names, found)
    {
      for k := 0 to |names|
        invariant captures == Write(old(captures), names[..k], found[..k])
      {
        assert names[..k + 1][..k] == names[..k] && found[..k + 1][..k] == found[..k];
        captures := captures[names[k] := found[k]];
      }
      assert names[..|names|] == names && found[..|found|] == found;
    }
  }

  datatype Matcher = Comm(comms: set<string>) | Exe(exes: map<string, string>) | Cmdline(matcher: CmdlineMatcher)
  {
    // The selector without its memory.
    function Rule(): Rule {
      match this
      case Comm(comms) => CommRule(comms)
      case Exe(exes) => ExeRule(exes)
      case Cmdline(m) => CmdlineRule(m.regexes)
    }
  }

  function RulesOf(matchers: seq<Matcher>): seq<Rule> {
    seq(|matchers|, i requires 0 <= i < |matchers| => matchers[i].Rule())
  }

  class MatchNamer {
    const matchers: seq<Matcher>
    const template: TemplateParams -> string

    constructor (matchers: seq<Matcher>, template: TemplateParams -> string)
      ensures this.matchers == matchers && this.template == template
    {
      this.matchers := matchers;
      this.template := template;
    }

    ghost function Memories(): set<CmdlineMatcher> {
      set m | m in matchers && m.Cmdline? :: m.matcher
    }

    ghost predicate Valid()
      reads Memories()
    {
      forall m | m in matchers && m.Cmdline? :: m.matcher.Valid()
    }

    function AsRule(): NamingRule {
      NamingRule(RulesOf(matchers), template)
    }

    // andMatcher.Match: asks the selectors in turn, and stops at the first that says no.
    method Match(nacl: ProcAttributes) returns (matched: bool)
      requires Valid()
      modifies Memories()
      ensures Valid()
      ensures matched <==> AcceptsAll(RulesOf(matchers), nacl)
      ensures matched ==> forall m | m in matchers && m.Cmdline? ::
                Accepts(m.Rule(), nacl) && m.matcher.captures == CapturesOf(m.Rule(), nacl)
    {
      for i := 0 to |matchers|
        invariant Valid()
        invariant forall k | 0 <= k < i :: Accepts(matchers[k].Rule(), nacl)
        invariant forall k | 0 <= k < i && matchers[k].Cmdline? ::
                  matchers[k].matcher.captures == CapturesOf(matchers[k].Rule(), nacl)
      {
        var ok;
        match matchers[i] {
          case Comm(comms) => ok := nacl.name in comms;
          case Exe(exes) => ok := ExeMatches(exes, nacl.cmdline);
          case Cmdline(m) =>
            assert matchers[i] in matchers;
            ok := m.Match(nacl);
        }
        if !ok {
          assert RulesOf(matchers)[i] == matchers[i].Rule() && !Accepts(matchers[i].Rule(), nacl);
          return false;
        }
      }
      return true;
    }

    method MatchAndName(nacl: ProcAttributes) returns (name: Option<string>)
      requires Valid()
      modifies Memories()
      ensures Valid()
      ensures name == NameOf(AsRule(), nacl)
    {
      var matched := Match(nacl);
      if !matched {
        return None;
      }
      var matches := MergeCaptures(nacl);
      return Some(template(Params(nacl, matches)));
    }

    // The captures of all cmdline selectors, later ones over earlier ones.
    method MergeCaptures(ghost nacl: ProcAttributes) returns (matches: Captures)
      requires AcceptsAll(RulesOf(matchers), nacl)
      requires forall m | m in matchers && m.Cmdline? ::
               Accepts(m.Rule(), nacl) && m.matcher.captures == CapturesOf(m.Rule(), nacl)
      ensures matches == AllCaptures(RulesOf(matchers), nacl)
    {
      ghost var rules := RulesOf(matchers);
      matches := map[];
      for i := 0 to |matchers|
        invariant matches == AllCaptures(rules[..i], nacl)
      {
        assert rules[..i + 1][..i] == rules[..i] && rules[i] == matchers[i].Rule() && matchers[i] in matchers;
        if matchers[i].Cmdline? {
          matches := matches + matchers[i].matcher.captures;
        } else {
          assert matches + map[] == matches;
        }
      }
      assert rules[..|rules|] == rules;
    }
  }

  function RulesOfAll(namers: seq<MatchNamer>): seq<NamingRule> {
    seq(|namers|, i requires 0 <= i < |namers| => namers[i].AsRule())
  }

  ghost function MemoriesOfAll(namers: seq<MatchNamer>): set<CmdlineMatcher> {
    set n, m | n in namers && m in n.Memories() :: m
  }

  // FirstMatcher.MatchAndName: whatever processes were asked about before, the answer depends on this
  // process alone.
  method FirstMatchAndName(namers: seq<MatchNamer>, nacl: ProcAttributes) returns (name: Option<string>)
    requires forall n | n in namers :: n.Valid()
    modifies MemoriesOfAll(namers)
    ensures forall n | n in namers :: n.Valid()
    ensures name == FirstName(RulesOfAll(namers), nacl)
  {
    var rules := RulesOfAll(namers);
    for i := 0 to |namers|
      invariant forall n | n in namers :: n.Valid()
      invariant FirstName(rules, nacl) == FirstName(rules[i..], nacl)
    {
      assert rules[i..][1..] == rules[i + 1..] && rules[i..][0] == namers[i].AsRule() && namers[i] in namers;
      name := namers[i].MatchAndName(nacl);
      if name.Some? {
        return;
      }
    }
    return None;
  }
}
