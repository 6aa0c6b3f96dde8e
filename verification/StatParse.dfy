/** The parsers of `cgroup/stat.go`, and their inverse: printing a map in the kernel's format and parsing
    it gives the map back, and lines the parser cannot read change nothing. */
module StatParse {
  import opened Wrappers
  import opened Counters
  import opened Collections
  import opened StatText

  type Flat = map<string, u64>
  type Nested = map<string, Flat>

  datatype ValueError = EmptyFile | NotANumber

  function ReadNumber(s: string): Result<u64, ValueError> {
    match ParseUint(s) case Some(n) => Ok(n) case None => Err(NotANumber)
  }

  function ParseUint64(content: string): Result<u64, ValueError> {
    var s := TrimSpace(content);
    if s == "" then Err(EmptyFile) else if s == "max" then Ok(0) else ReadNumber(s)
  }

  // The limit, None for "max".
  function ParsePidsMax(content: string): Result<Option<u64>, ValueError> {
    var s := TrimSpace(content);
    if s == "" then Err(EmptyFile) else if s == "max" then Ok(None) else
    match ReadNumber(s) case Ok(n) => Ok(Some(n)) case Err(e) => Err(e)
  }

  // A number followed by a newline is read back; one past 2^64 - 1 is an error.
  lemma Uint64RoundTrip(n: nat)
    ensures ParseUint64(Decimal(n) + ['\n']) == if n < TWO_64 then Ok(n) else Err(NotANumber)
  {
    TrimsNumber(Decimal(n), n);
    ParseUintOfDecimal(n);
    MaxIsNoNumber(n);
  }

  lemma TrimsNumber(text: string, n: nat)
    requires text == Decimal(n)
    ensures TrimSpace(text + ['\n']) == text != []
  {
    DecimalIsSolid(n);
    DecimalHasValue(n);
    TrimsNewline(text);
  }

  lemma TrimsNewline(text: string)
    requires text != [] && Solid(text)
    ensures TrimSpace(text + ['\n']) == text
  {
    assert (text + ['\n'])[..|text|] == text;
    assert TrimLeft(text + ['\n']) == text + ['\n'] by { assert (text + ['\n'])[0] == text[0]; }
    assert TrimRight(text + ['\n']) == TrimRight(text) == text;
  }

  // What the kernel writes for a limit comes back, "max" as no limit.
  lemma PidsMaxRoundTrip(limit: Option<u64>)
    ensures var text := match limit case Some(n) => Decimal(n) case None => "max";
      ParsePidsMax(text + ['\n']) == Ok(limit)
  {
    match limit {
      case Some(n) =>
        TrimsNumber(Decimal(n), n);
        ParseUintOfDecimal(n);
        MaxIsNoNumber(n);
      case None =>
        TrimsNewline("max");
    }
  }

  // A value file with any white space around its text: nothing at all is an error, "max" is 0 for one parser
  // and no limit for the other, and the rest is a number or an error.
  lemma ValueIsTrimmed(a: string, text: string, b: string)
    requires Blank(a) && Blank(b) && Solid(text)
    ensures var content := a + text + b;
      if text == [] then ParseUint64(content) == Err(EmptyFile) && ParsePidsMax(content) == Err(EmptyFile)
      else if text == "max" then ParseUint64(content) == Ok(0) && ParsePidsMax(content) == Ok(None)
      else match ParseUint(text)
        case Some(n) => ParseUint64(content) == Ok(n) && ParsePidsMax(content) == Ok(Some(n))
        case None => ParseUint64(content) == Err(NotANumber) && ParsePidsMax(content) == Err(NotANumber)
  {
    if text == [] {
      BlankTrimsAway(a + text + b);
    } else {
      TrimsBlanks(a, text, b);
    }
  }

  lemma MaxIsNoNumber(n: nat)
    ensures Decimal(n) != "max"
  {
    DecimalHasValue(n);
    if |Decimal(n)| == 3 { assert IsDigit(Decimal(n)[0]); }
  }

  // ---------------------------------------------------------------- "key value" lines

  // What one line says; None for a line that is skipped.
  function KeyedLine(text: string): Option<(string, u64)> {
    var line := TrimSpace(text);
    if line == "" then None else
    match Cut(line, ' ')
    case None => None
    case Some((key, val)) =>
      match ParseUint(TrimSpace(val)) case Some(u) => Some((key, u)) case None => None
  }

  function KeyedLines(lines: seq<string>): Flat {
    PutAll(KeyedLine, lines)
  }

  method ParseKeyed(content: string) returns (out: Flat)
    ensures out == KeyedLines(Lines(content))
  {
    out := map[];
    var lines := Lines(content);
    for i := 0 to |lines|
      invariant out == KeyedLines(lines[..i])
    {
      assert lines[..i + 1][..i] == lines[..i];
      var line := TrimSpace(lines[i]);
      if line == "" {
        continue;
      }
      var cut := Cut(line, ' ');
      if cut.None? {
        continue;
      }
      var u := ParseUint(TrimSpace(cut.value.1));
      if u.None? {
        continue;
      }
      out := out[cut.value.0 := u.value];
    }
    assert lines[..|lines|] == lines;
  }

  // A key of a "key value" file: no white space.
  ghost predicate IsKey(key: string) {
    key != [] && Solid(key)
  }

  function PrintKeyed(key: string, u: u64): string {
    key + [' '] + Decimal(u)
  }

  lemma SolidHasNoBreaks(s: string)
    requires Solid(s)
    ensures ' ' !in s && '\n' !in s && '\r' !in s
  {
    forall i | 0 <= i < |s| ensures s[i] != ' ' && s[i] != '\n' && s[i] != '\r' {}
  }

  lemma KeyedLineOfPrinted(key: string, u: u64)
    requires IsKey(key)
    ensures KeyedLine(PrintKeyed(key, u)) == Some((key, u)) && IsLine(PrintKeyed(key, u))
  {
    var line, val := PrintKeyed(key, u), Decimal(u);
    DecimalHasValue(u);
    DecimalIsSolid(u);
    ParseUintOfDecimal(u);
    SolidHasNoBreaks(key);
    SolidHasNoBreaks(val);
    assert line[0] == key[0] && line[|line| - 1] == val[|val| - 1];
    TrimKeeps(line);
    CutsAtFirst(key, ' ', val);
    TrimKeeps(val);
  }

  function PrintFlat(m: Flat, order: seq<string>): seq<string>
    requires forall k | k in order :: k in m
  {
    if order == [] then [] else
    PrintFlat(m, order[..|order| - 1]) + [PrintKeyed(order[|order| - 1], m[order[|order| - 1]])]
  }

  lemma {:induction false} KeyedLinesOfPrinted(m: Flat, order: seq<string>)
    requires forall k | k in order :: k in m && IsKey(k)
    ensures forall i | 0 <= i < |PrintFlat(m, order)| :: IsLine(PrintFlat(m, order)[i])
    ensures KeyedLines(PrintFlat(m, order)) == Restrict(m, order)
  {
    if order != [] {
      var front, key := order[..|order| - 1], order[|order| - 1];
      assert order == front + [key];
      KeyedLinesOfPrinted(m, front);
      KeyedLineOfPrinted(key, m[key]);
      PutAllAppends(KeyedLine, PrintFlat(m, front), PrintKeyed(key, m[key]));
    }
  }

  function Restrict<K, V>(m: map<K, V>, order: seq<K>): map<K, V> {
    map k | k in order && k in m :: m[k]
  }

  lemma RestrictToAll<K(!new), V(!new)>(m: map<K, V>, order: seq<K>)
    requires Ordering(order, m.Keys)
    ensures Restrict(m, order) == m
  {
  }

  // Printed in any order, a map of well-formed keys is read back as it was.
  lemma KeyedRoundTrip(m: Flat, order: seq<string>)
    requires Ordering(order, m.Keys) && forall k | k in m :: IsKey(k)
    ensures KeyedLines(Lines(JoinLines(PrintFlat(m, order)))) == m
  {
    KeyedLinesOfPrinted(m, order);
    LinesOfJoined(PrintFlat(m, order));
    RestrictToAll(m, order);
  }

  // ---------------------------------------------------------------- tolerance

  // A line that does not parse may stand anywhere: blank, without a space, or with no uint64 after it.
  lemma UnreadableLineIsSkipped(a: seq<string>, line: string, b: seq<string>)
    requires || Blank(line)
             || Cut(TrimSpace(line), ' ').None?
             || ParseUint(TrimSpace(Cut(TrimSpace(line), ' ').value.1)).None?
    ensures KeyedLines(a + [line] + b) == KeyedLines(a + b)
  {
    if Blank(line) {
      BlankTrimsAway(line);
    }
    PutAllSkips(KeyedLine, a, line, b);
  }

  // A line is read with any white space around its key and its number.
  lemma PaddedLineIsRead(a: string, key: string, gap: string, val: string, b: string)
    requires Blank(a) && Blank(gap) && Blank(b) && IsKey(key) && val != [] && Solid(val)
    ensures KeyedLine(a + key + [' '] + gap + val + b) ==
            match ParseUint(val) case Some(u) => Some((key, u)) case None => None
  {
    var line := key + [' '] + gap + val;
    assert a + key + [' '] + gap + val + b == a + line + b;
    assert line[0] == key[0] && line[|line| - 1] == val[|val| - 1];
    TrimsBlanks(a, line, b);
    SolidHasNoBreaks(key);
    assert line == key + [' '] + (gap + val);
    CutsAtFirst(key, ' ', gap + val);
    TrimsBlanks(gap, val, []);
    assert gap + val + [] == gap + val;
  }

  // When a key comes more than once, the last line that can be read counts.
  lemma LastLineWins(lines: seq<string>, key: string, u: u64)
    ensures Lookup(KeyedLines(lines), key) == Some(u) <==> exists i: nat :: IsLastEntry(KeyedLine, lines, i, key, u)
  {
    LastEntryWins(KeyedLine, lines, key, u);
  }

  // Lines with distinct keys may come in any order.
  lemma LineOrderDoesNotMatter(lines: seq<string>, others: seq<string>)
    requires multiset(lines) == multiset(others) && DistinctEntries(KeyedLine, lines)
             && DistinctEntries(KeyedLine, others)
    ensures KeyedLines(lines) == KeyedLines(others)
  {
    PutAllIgnoresOrder(KeyedLine, lines, others);
  }

  // ---------------------------------------------------------------- io.stat

  // One "key=value" pair of a device line.
  function Pair(text: string): Option<(string, u64)> {
    match Cut(text, '=')
    case None => None
    case Some((key, val)) => match ParseUint(val) case Some(u) => Some((key, u)) case None => None
  }

  function PairCounters(pairs: seq<string>): Flat {
    PutAll(Pair, pairs)
  }

  // A device line: the first field names the device, the others are its counters.
  function DeviceLine(text: string): Option<(string, Flat)> {
    var fields := Fields(TrimSpace(text));
    if TrimSpace(text) == "" || fields == [] then None else Some((fields[0], PairCounters(fields[1..])))
  }

  function DeviceLines(lines: seq<string>): Nested {
    PutAll(DeviceLine, lines)
  }

  lemma {:induction false} TrimmedHasFields(s: string)
    ensures TrimSpace(s) != [] ==> Fields(TrimSpace(s)) != []
  {
    TrimRightEndsSolid(TrimLeft(s));
  }

  lemma {:induction false} TrimRightEndsSolid(s: string)
    ensures TrimRight(s) == [] || !IsSpace(TrimRight(s)[|TrimRight(s)| - 1])
  {
    if s != [] && IsSpace(s[|s| - 1]) {
      TrimRightEndsSolid(s[..|s| - 1]);
    }
  }

  method ParsePairs(pairs: seq<string>) returns (counters: Flat)
    ensures counters == PairCounters(pairs)
  {
    counters := map[];
    for k := 0 to |pairs|
      invariant counters == PairCounters(pairs[..k])
    {
      assert pairs[..k + 1][..k] == pairs[..k];
      var cut := Cut(pairs[k], '=');
      if cut.None? {
        continue;
      }
      var u := ParseUint(cut.value.1);
      if u.None? {
        continue;
      }
      counters := counters[cut.value.0 := u.value];
    }
    assert pairs[..|pairs|] == pairs;
  }

  method ParseDevice(text: string) returns (device: Option<(string, Flat)>)
    ensures device == DeviceLine(text)
  {
    var line := TrimSpace(text);
    TrimmedHasFields(text);
    if line == "" {
      return None;
    }
    var fields := Fields(line);
    var counters := ParsePairs(fields[1..]);
    return Some((fields[0], counters));
  }

  method ParseIOStat(content: string) returns (out: Nested)
    ensures out == DeviceLines(Lines(content))
  {
    out := map[];
    var lines := Lines(content);
    for i := 0 to |lines|
      invariant out == DeviceLines(lines[..i])
    {
      assert lines[..i + 1][..i] == lines[..i];
      var device := ParseDevice(lines[i]);
      if device.Some? {
        out := out[device.value.0 := device.value.1];
      }
    }
    assert lines[..|lines|] == lines;
  }

  ghost predicate IsPairKey(key: string) {
    Solid(key) && '=' !in key
  }

  function PrintPair(key: string, u: u64): string {
    key + ['='] + Decimal(u)
  }

  lemma PairOfPrinted(key: string, u: u64)
    requires IsPairKey(key)
    ensures Pair(PrintPair(key, u)) == Some((key, u))
    ensures PrintPair(key, u) != [] && Solid(PrintPair(key, u))
  {
    ParseUintOfDecimal(u);
    DecimalIsSolid(u);
    CutsAtFirst(key, '=', Decimal(u));
  }

  function PrintPairs(m: Flat, order: seq<string>): seq<string>
    requires forall k | k in order :: k in m
  {
    if order == [] then [] else
    PrintPairs(m, order[..|order| - 1]) + [PrintPair(order[|order| - 1], m[order[|order| - 1]])]
  }

  lemma {:induction false} CountersOfPrinted(m: Flat, order: seq<string>)
    requires forall k | k in order :: k in m && IsPairKey(k)
    ensures PairCounters(PrintPairs(m, order)) == Restrict(m, order)
    ensures forall i | 0 <= i < |PrintPairs(m, order)| ::
            PrintPairs(m, order)[i] != [] && Solid(PrintPairs(m, order)[i])
  {
    if order != [] {
      var front, key := order[..|order| - 1], order[|order| - 1];
      assert order == front + [key];
      CountersOfPrinted(m, front);
      PairOfPrinted(key, m[key]);
      PutAllAppends(Pair, PrintPairs(m, front), PrintPair(key, m[key]));
    }
  }

  // Words separated by single spaces.
  function JoinWords(words: seq<string>): string
    requires words != []
  {
    if |words| == 1 then words[0] else JoinWords(words[..|words| - 1]) + [' '] + words[|words| - 1]
  }

  lemma {:induction false} FieldsOfJoined(words: seq<string>)
    requires words != [] && forall i | 0 <= i < |words| :: words[i] != [] && Solid(words[i])
    ensures Fields(JoinWords(words)) == words
    ensures var s := JoinWords(words);
      s != [] && !IsSpace(s[0]) && !IsSpace(s[|s| - 1]) && IsLine(s)
  {
    var front, last := words[..|words| - 1], words[|words| - 1];
    assert words == front + [last];
    SolidHasNoBreaks(last);
    if |words| == 1 {
      assert [] + last == last;
      FieldsAppends([], last);
    } else {
      FieldsOfJoined(front);
      var p := JoinWords(front) + [' '];
      FieldsSkipSpace(JoinWords(front), ' ');
      FieldsAppends(p, last);
      assert p[0] == JoinWords(front)[0];
    }
  }

  function PrintDevice(dev: string, m: Flat, order: seq<string>): string
    requires forall k | k in order :: k in m
  {
    JoinWords([dev] + PrintPairs(m, order))
  }

  lemma DeviceOfPrinted(dev: string, m: Flat, order: seq<string>)
    requires IsKey(dev) && Ordering(order, m.Keys) && forall k | k in m :: IsPairKey(k)
    ensures DeviceLine(PrintDevice(dev, m, order)) == Some((dev, m)) && IsLine(PrintDevice(dev, m, order))
  {
    CountersOfPrinted(m, order);
    var words := [dev] + PrintPairs(m, order);
    FieldsOfJoined(words);
    TrimKeeps(JoinWords(words));
    assert words[1..] == PrintPairs(m, order);
    RestrictToAll(m, order);
  }

  // The device can be printed, its counters in the order given.
  ghost predicate Printable(m: Nested, orders: map<string, seq<string>>, dev: string) {
    && dev in m && IsKey(dev)
    && dev in orders && Ordering(orders[dev], m[dev].Keys)
    && forall k | k in m[dev] :: IsPairKey(k)
  }

  function PrintNested(m: Nested, order: seq<string>, orders: map<string, seq<string>>): seq<string>
    requires forall d | d in order :: Printable(m, orders, d)
  {
    if order == [] then [] else
    var dev := order[|order| - 1];
    assert Printable(m, orders, dev);
    PrintNested(m, order[..|order| - 1], orders) + [PrintDevice(dev, m[dev], orders[dev])]
  }

  lemma {:induction false} DeviceLinesOfPrinted(m: Nested, order: seq<string>, orders: map<string, seq<string>>)
    requires forall d | d in order :: Printable(m, orders, d)
    ensures DeviceLines(PrintNested(m, order, orders)) == Restrict(m, order)
  {
    if order != [] {
      var front, dev := order[..|order| - 1], order[|order| - 1];
      assert order == front + [dev];
      assert Printable(m, orders, dev);
      DeviceLinesOfPrinted(m, front, orders);
      DeviceOfPrinted(dev, m[dev], orders[dev]);
      PutAllAppends(DeviceLine, PrintNested(m, front, orders), PrintDevice(dev, m[dev], orders[dev]));
      RestrictGrows(m, front, dev);
    }
  }

  lemma RestrictGrows<V(!new)>(m: map<string, V>, front: seq<string>, key: string)
    requires key in m
    ensures Restrict(m, front + [key]) == Restrict(m, front)[key := m[key]]
  {
  }

  lemma {:induction false} PrintedDevicesAreLines(m: Nested, order: seq<string>, orders: map<string, seq<string>>)
    requires forall d | d in order :: Printable(m, orders, d)
    ensures forall i | 0 <= i < |PrintNested(m, order, orders)| :: IsLine(PrintNested(m, order, orders)[i])
  {
    if order != [] {
      var front, dev := order[..|order| - 1], order[|order| - 1];
      assert order == front + [dev];
      assert Printable(m, orders, dev);
      PrintedDevicesAreLines(m, front, orders);
      DeviceOfPrinted(dev, m[dev], orders[dev]);
    }
  }

  // Printed in any order of devices, and of counters within each, a map of devices is read back as it was;
  // a device without counters keeps its empty entry.
  lemma IOStatRoundTrip(m: Nested, order: seq<string>, orders: map<string, seq<string>>)
    requires Ordering(order, m.Keys) && forall d | d in m :: Printable(m, orders, d)
    ensures forall d | d in order :: Printable(m, orders, d)
    ensures DeviceLines(Lines(JoinLines(PrintNested(m, order, orders)))) == m
  {
    DeviceLinesOfPrinted(m, order, orders);
    PrintedDevicesAreLines(m, order, orders);
    RestrictToAll(m, order);
    LinesOfJoined(PrintNested(m, order, orders));
  }

  // A pair that does not parse may stand anywhere in its device line.
  lemma UnreadablePairIsSkipped(a: seq<string>, pair: string, b: seq<string>)
    requires Cut(pair, '=').None? || ParseUint(Cut(pair, '=').value.1).None?
    ensures PairCounters(a + [pair] + b) == PairCounters(a + b)
  {
    PutAllSkips(Pair, a, pair, b);
  }

  // When a device comes more than once, or a counter in its line, the last one counts.
  lemma LastDeviceWins(lines: seq<string>, dev: string, counters: Flat, pairs: seq<string>, key: string, u: u64)
    ensures Lookup(DeviceLines(lines), dev) == Some(counters) <==>
            exists i: nat :: IsLastEntry(DeviceLine, lines, i, dev, counters)
    ensures Lookup(PairCounters(pairs), key) == Some(u) <==> exists i: nat :: IsLastEntry(Pair, pairs, i, key, u)
  {
    LastEntryWins(DeviceLine, lines, dev, counters);
    LastEntryWins(Pair, pairs, key, u);
  }

  // Lines of different devices may come in any order.
  lemma DeviceOrderDoesNotMatter(lines: seq<string>, others: seq<string>)
    requires multiset(lines) == multiset(others) && DistinctEntries(DeviceLine, lines)
             && DistinctEntries(DeviceLine, others)
    ensures DeviceLines(lines) == DeviceLines(others)
  {
    PutAllIgnoresOrder(DeviceLine, lines, others);
  }

  // A blank line may stand anywhere between the devices.
  lemma BlankDeviceLineIsSkipped(a: seq<string>, line: string, b: seq<string>)
    requires Blank(line)
    ensures DeviceLines(a + [line] + b) == DeviceLines(a + b)
  {
    BlankTrimsAway(line);
    PutAllSkips(DeviceLine, a, line, b);
  }
}
