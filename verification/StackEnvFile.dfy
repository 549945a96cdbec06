/** The env file of a stack: `parse_env_lines` in tools/environment_files.py and its printer
    `render_env_content` in tools/deployer/data_workflow_support.py. */
module StackEnvFile {
  import opened Wrappers
  import opened Names
  import opened StableSort
  import opened PyStrings
  import opened EnvMaps
  import EnvText

  predicate IsQuote(c: char) {
    c == '"' || c == '\''
  }

  predicate Quoted(value: string) {
    2 <= |value| && value[0] == value[|value| - 1] && IsQuote(value[0])
  }

  /** Where a ` #` begins from `i` on, or the length. */
  function CommentAt(value: string, i: nat): (at: nat)
    requires i <= |value|
    ensures i <= at <= |value| && (at < |value| ==> at + 1 < |value| && value[at] == ' ' && value[at + 1] == '#')
    decreases |value| - i
  {
    if |value| - i < 2 then |value|
    else if value[i] == ' ' && value[i + 1] == '#' then i
    else CommentAt(value, i + 1)
  }

  /** A value without its quotes, or without the comment after it. */
  function Unquoted(value: string): string {
    var at := CommentAt(value, 0);
    if Quoted(value) then value[1..|value| - 1]
    else if at < |value| then StripRight(value[..at])
    else value
  }

  function ParseEntry(raw: Line): Option<Entry> {
    match EnvText.ParseLine(raw)
    case None => None
    case Some(e) => Some(Entry(e.key, Unquoted(Strip(e.value))))
  }

  function Parse(lines: seq<Line>): seq<Entry> {
    Collect(ParseEntry, lines)
  }

  function ByKey(a: Entry, b: Entry): bool {
    NameLeq(a.key, b.key)
  }

  function SortedByKey(values: seq<Entry>): seq<Entry> {
    Sort(values, ByKey)
  }

  /** `render_env_content`. */
  function RenderContent(values: seq<Entry>): string {
    JoinLines(EnvText.Rendered(SortedByKey(values))) + ['\n']
  }

  /** `parse_env_lines`. */
  method ParseEnvLines(rawLines: seq<Line>) returns (parsedValues: seq<Entry>)
    ensures parsedValues == Parse(rawLines)
  {
    parsedValues := [];
    var i := 0;
    while i < |rawLines|
      invariant i <= |rawLines| && parsedValues == Collect(ParseEntry, rawLines[..i])
    {
      CollectNext(ParseEntry, rawLines, i);
      parsedValues := TakeLine(parsedValues, rawLines[i]);
      i := i + 1;
    }
    assert rawLines[..i] == rawLines;
  }

  method TakeLine(before: seq<Entry>, raw: Line) returns (parsedValues: seq<Entry>)
    ensures parsedValues == Contribute(before, ParseEntry(raw))
  {
    parsedValues := before;
    var e := EnvText.ReadLine(raw);
    if e.Some? {
      var value := ReadValue(e.value.value);
      parsedValues := Put(parsedValues, Entry(e.value.key, value));
    }
  }

  method ReadValue(valuePart: string) returns (value: string)
    ensures value == Unquoted(Strip(valuePart))
  {
    value := Strip(valuePart);
    var at := CommentAt(value, 0);
    if Quoted(value) {
      value := value[1..|value| - 1];
    } else if at < |value| {
      value := StripRight(value[..at]);
    }
  }

  // ------------------------------------------------------------ one line

  predicate CleanValue(value: string) {
    OneLine(value) && Stripped(value) && !Quoted(value) && CommentAt(value, 0) == |value|
  }

  predicate Clean(e: Entry) {
    EnvText.Clean(Entry(e.key, [])) && CleanValue(e.value)
  }

  ghost predicate AllClean(m: seq<Entry>) {
    forall i :: 0 <= i < |m| ==> Clean(m[i])
  }

  /** ` #` somewhere in the value, said outright. */
  lemma {:induction false} CommentAtIff(value: string, i: nat)
    requires i <= |value|
    ensures CommentAt(value, i) == |value| <==>
      forall k :: i <= k < |value| - 1 ==> !(value[k] == ' ' && value[k + 1] == '#')
    decreases |value| - i
  {
    if 2 <= |value| - i {
      CommentAtIff(value, i + 1);
    }
  }

  /** The values that can be printed and read back, character by character. */
  lemma CleanValueIff(value: string)
    ensures CleanValue(value) <==>
      var last := |value| - 1;
      && (forall k :: 0 <= k <= last ==> !IsBreak(value[k]))
      && (value != [] ==> !IsBlank(value[0]) && !IsBlank(value[last]))
      && (|value| >= 2 ==> !(value[0] == value[last] == '"') && !(value[0] == value[last] == '\''))
      && forall k :: 0 <= k < last ==> !(value[k] == ' ' && value[k + 1] == '#')
  {
    CommentAtIff(value, 0);
  }

  function Size(e: Entry): nat {
    |e.key| + |e.value|
  }

  lemma UnquotedShrinks(value: string)
    ensures |Unquoted(value)| <= |value|
    ensures |Unquoted(value)| == |value| <==> !Quoted(value) && CommentAt(value, 0) == |value|
    ensures |Unquoted(value)| == |value| ==> Unquoted(value) == value
  {}

  lemma StripShrinks(s: string)
    ensures |Strip(s)| <= |s| && (|Strip(s)| == |s| ==> Strip(s) == s)
  {}

  lemma AssignmentSize(line: string)
    requires EnvText.Assignment(line).Some?
    ensures Size(EnvText.Assignment(line).value) < |line|
  {
    StripShrinks(line[..IndexOf(line, '=')]);
  }

  lemma LineSize(raw: Line)
    requires EnvText.ParseLine(raw).Some?
    ensures Size(EnvText.ParseLine(raw).value) < |Strip(raw)| <= |raw|
  {
    var line := Strip(raw);
    StripShrinks(raw);
    if EnvText.Exported(line) {
      StripShrinks(line[7..]);
    }
    AssignmentSize(EnvText.Unexported(line));
  }

  lemma ValueShrinks(value: string)
    ensures |Unquoted(Strip(value))| <= |value|
    ensures |Unquoted(Strip(value))| == |value| ==> Unquoted(Strip(value)) == value
  {
    StripShrinks(value);
    UnquotedShrinks(Strip(value));
  }

  lemma CleanReads(e: Entry)
    requires Clean(e)
    ensures ParseEntry(EnvText.Render(e)) == Some(e) && OneLine(EnvText.Render(e))
  {
    EnvText.RenderIsStripped(e);
    EnvText.RenderReadsAsEcho(e);
    StripIsStripped(e.value);
  }

  lemma ValueIsClean(value: string)
    requires OneLine(value) && Unquoted(Strip(value)) == value
    ensures CleanValue(value)
  {
    ValueShrinks(value);
    StripShrinks(value);
    UnquotedShrinks(Strip(value));
    StripIsStripped(value);
  }

  /** A printed line is read back as it stands if and only if it is clean. */
  lemma LineReadsIff(e: Entry)
    requires OneLine(e.key) && OneLine(e.value)
    ensures ParseEntry(EnvText.Render(e)) == Some(e) <==> Clean(e)
  {
    if Clean(e) {
      CleanReads(e);
    }
    if ParseEntry(EnvText.Render(e)) == Some(e) {
      ReadsIsClean(e);
    }
  }

  lemma ReadsIsClean(e: Entry)
    requires OneLine(e.key) && OneLine(e.value) && ParseEntry(EnvText.Render(e)) == Some(e)
    ensures Clean(e)
  {
    ReadsValueIsClean(e);
    ReadsNameIsClean(e);
  }

  lemma ReadsNameIsClean(e: Entry)
    requires OneLine(e.key) && OneLine(e.value) && EnvText.ParseLine(EnvText.Render(e)) == Some(e)
    ensures EnvText.Clean(e)
  {
    RenderIsOneLine(e);
    EnvText.ParsedLineIsTidy(EnvText.Render(e));
    EnvText.RenderReadsAsEcho(e);
    EnvText.EchoIsIdentityIff(e);
  }

  lemma RenderIsOneLine(e: Entry)
    requires OneLine(e.key) && OneLine(e.value)
    ensures OneLine(EnvText.Render(e))
  {
    EnvText.EqualsSign();
  }

  lemma ReadsValueIsClean(e: Entry)
    requires OneLine(e.value) && ParseEntry(EnvText.Render(e)) == Some(e)
    ensures CleanValue(e.value) && EnvText.ParseLine(EnvText.Render(e)) == Some(e)
  {
    var back := EnvText.ParseLine(EnvText.Render(e)).value;
    LineSize(EnvText.Render(e));
    ValueShrinks(back.value);
    ValueIsClean(e.value);
  }

  /** What a parsed line always gives: a tidy name, and no line break. */
  predicate Parsed(e: Entry) {
    EnvText.Tidy(Entry(e.key, [])) && OneLine(e.value)
  }

  lemma UnquotedKeepsLine(value: string)
    requires OneLine(value)
    ensures OneLine(Unquoted(value))
  {
    if Quoted(value) {
      var inner := value[1..|value| - 1];
      forall i | 0 <= i < |inner| ensures !IsBreak(inner[i]) {
        assert inner[i] == value[i + 1];
      }
    }
  }

  lemma EntryIsParsed(raw: Line)
    requires OneLine(raw) && ParseEntry(raw).Some?
    ensures Parsed(ParseEntry(raw).value)
  {
    EnvText.ParsedLineIsTidy(raw);
    StripKeepsLine(EnvText.ParseLine(raw).value.value);
    UnquotedKeepsLine(Strip(EnvText.ParseLine(raw).value.value));
  }

  /** A line read back otherwise than printed comes back smaller. */
  lemma ReadsSmaller(e: Entry)
    requires Parsed(e) && ParseEntry(EnvText.Render(e)).Some?
    ensures ParseEntry(EnvText.Render(e)) == Some(e) || Size(ParseEntry(EnvText.Render(e)).value) < Size(e)
  {
    var raw := EnvText.Render(e);
    ValueShrinks(EnvText.ParseLine(raw).value.value);
    if EndsWell(e.value) {
      EnvText.RenderReadsAsEcho(e);
      EchoSize(e);
    } else {
      LineSize(raw);
      StripShrinks(raw);
      StripIsStripped(raw);
      assert raw[|raw| - 1] == e.value[|e.value| - 1];
    }
  }

  lemma EchoSize(e: Entry)
    requires EnvText.Echo(e).Some?
    ensures EnvText.Echo(e) == Some(e) || Size(EnvText.Echo(e).value) < Size(e)
    ensures EnvText.Echo(e).value.value == e.value
  {
    if EnvText.Exported(e.key) {
      StripShrinks(e.key[7..]);
    }
  }

  // ------------------------------------------------------------ the whole file

  /** `dict` equality: the same value for every key. */
  ghost predicate SameMap(m: seq<Entry>, n: seq<Entry>) {
    forall key :: Get(m, key) == Get(n, key)
  }

  function Reread(values: seq<Entry>): seq<Entry> {
    Parse(SplitLines(RenderContent(values)))
  }

  lemma SortKeepsMap(values: seq<Entry>)
    requires Distinct(values)
    ensures Distinct(SortedByKey(values)) && SameMap(SortedByKey(values), values)
    ensures multiset(SortedByKey(values)) == multiset(values)
  {
    var s := SortedByKey(values);
    SortPermutes(values, ByKey);
    PermutedIsDistinct(values, s);
    forall key ensures Get(s, key) == Get(values, key) {
      PermutedGet(values, s, key);
    }
  }

  /** The printed lines are in the order of their names. */
  lemma PrintedInOrder(values: seq<Entry>)
    ensures Sorted(SortedByKey(values), ByKey)
  {
    forall a, b ensures ByKey(a, b) || ByKey(b, a) {
      NameLeqTotal(a.key, b.key);
    }
    forall a, b, c | ByKey(a, b) && ByKey(b, c) ensures ByKey(a, c) {
      NameLeqTransitive(a.key, b.key, c.key);
    }
    SortSorts(values, ByKey);
  }

  ghost predicate AllOneLine(m: seq<Entry>) {
    forall i :: 0 <= i < |m| ==> OneLine(m[i].key) && OneLine(m[i].value)
  }

  lemma RereadsLines(values: seq<Entry>)
    requires AllOneLine(SortedByKey(values))
    ensures Reread(values) == Collect(ParseEntry, EnvText.Rendered(SortedByKey(values)))
  {
    var s := SortedByKey(values);
    var lines := EnvText.Rendered(s);
    forall i | 0 <= i < |lines| ensures OneLine(lines[i]) {
      RenderIsOneLine(s[i]);
    }
    if lines == [] {
      EmptyFile();
    } else {
      SplitTerminated(lines);
    }
  }

  lemma EmptyFile()
    ensures Parse(SplitLines(JoinLines([]) + ['\n'])) == []
  {
    SplitFirst([], []);
    assert JoinLines([]) + ['\n'] == [] + ['\n'] + [];
    assert [[]] + SplitLines([]) == [[]];
    var lines: seq<Line> := [[]];
    assert lines[..0] == [] && Strip([]) == [];
    assert EnvText.ParseLine([]) == None;
  }

  /** A clean map is read back, in the order of its names. */
  lemma CleanRereads(values: seq<Entry>)
    requires Distinct(values) && AllClean(values)
    ensures Reread(values) == SortedByKey(values)
  {
    var s := SortedByKey(values);
    SortKeepsMap(values);
    CleanInAnyOrder(values, s);
    RereadsLines(values);
    forall i | 0 <= i < |s| ensures ParseEntry(EnvText.Rendered(s)[i]) == Some(s[i]) {
      CleanReads(s[i]);
    }
    CollectReads(ParseEntry, EnvText.Rendered(s), s);
  }

  ghost predicate ReadFrom(s: seq<Entry>, e: Entry) {
    exists j :: 0 <= j < |s| && ParseEntry(EnvText.Render(s[j])) == Some(e)
  }

  ghost predicate AllReadBack(s: seq<Entry>) {
    forall k :: 0 <= k < |s| ==> Parsed(s[k]) && ReadFrom(s, s[k])
  }

  ghost predicate Bounded(s: seq<Entry>, bound: nat) {
    forall j :: 0 <= j < |s| ==> Size(s[j]) <= bound
  }

  lemma {:induction false} SizesAreBounded(s: seq<Entry>) returns (bound: nat)
    ensures Bounded(s, bound)
  {
    if s == [] {
      bound := 0;
    } else {
      var last := |s| - 1;
      var rest := SizesAreBounded(s[..last]);
      bound := if Size(s[last]) < rest then rest else Size(s[last]);
      assert forall j :: 0 <= j < last ==> s[..last][j] == s[j];
    }
  }

  /** An entry can only have come from its own line: another one would have to be larger, and
      so on without end. */
  lemma {:induction false} ReadFromOwnLine(s: seq<Entry>, i: nat, bound: nat)
    requires Bounded(s, bound) && i < |s|
    requires AllReadBack(s)
    ensures Clean(s[i])
    decreases bound - Size(s[i])
  {
    assert Parsed(s[i]) && ReadFrom(s, s[i]);
    var j :| 0 <= j < |s| && ParseEntry(EnvText.Render(s[j])) == Some(s[i]);
    ReadsSmaller(s[j]);
    if s[j] == s[i] {
      LineReadsIff(s[i]);
    } else {
      ReadFromOwnLine(s, j, bound);
      LineReadsIff(s[j]);
    }
  }

  lemma RereadIsParsed(values: seq<Entry>, i: nat)
    requires i < |Reread(values)|
    ensures Parsed(Reread(values)[i])
  {
    var lines := SplitLines(RenderContent(values));
    var k := CollectSource(ParseEntry, lines, i);
    SplitGivesLines(RenderContent(values));
    EntryIsParsed(lines[k]);
  }

  lemma SameMapHas(m: seq<Entry>, n: seq<Entry>, i: nat) returns (k: nat)
    requires Distinct(n) && SameMap(m, n) && i < |n|
    ensures k < |m| && m[k] == n[i]
  {
    FindOwn(n, i);
    assert Get(m, n[i].key) == Get(n, n[i].key);
    k := Find(m, n[i].key);
  }

  lemma RereadIsReadFrom(values: seq<Entry>, k: nat)
    requires AllOneLine(SortedByKey(values)) && k < |Reread(values)|
    ensures ReadFrom(SortedByKey(values), Reread(values)[k])
  {
    RereadsLines(values);
    var j := CollectSource(ParseEntry, EnvText.Rendered(SortedByKey(values)), k);
    assert EnvText.Rendered(SortedByKey(values))[j] == EnvText.Render(SortedByKey(values)[j]);
  }

  lemma SameMapIsReadBack(values: seq<Entry>)
    requires Distinct(values) && SameMap(Reread(values), SortedByKey(values)) && Distinct(SortedByKey(values))
    ensures AllReadBack(SortedByKey(values))
  {
    var s, back := SortedByKey(values), Reread(values);
    forall i | 0 <= i < |s| ensures Parsed(s[i]) {
      var k := SameMapHas(back, s, i);
      RereadIsParsed(values, k);
    }
    assert AllOneLine(s);
    forall i | 0 <= i < |s| ensures ReadFrom(s, s[i]) {
      var k := SameMapHas(back, s, i);
      RereadIsReadFrom(values, k);
    }
  }

  lemma ReadBackIsClean(s: seq<Entry>)
    requires AllReadBack(s)
    ensures AllClean(s)
  {
    var bound := SizesAreBounded(s);
    forall i | 0 <= i < |s| ensures Clean(s[i]) {
      ReadFromOwnLine(s, i, bound);
    }
  }

  lemma CleanInAnyOrder(m: seq<Entry>, n: seq<Entry>)
    requires multiset(m) == multiset(n) && AllClean(m)
    ensures AllClean(n)
  {
    forall i | 0 <= i < |n| ensures Clean(n[i]) {
      assert n[i] in multiset(m);
    }
  }

  lemma SameMapIsClean(values: seq<Entry>)
    requires Distinct(values) && SameMap(Reread(values), values)
    ensures AllClean(values)
  {
    var s := SortedByKey(values);
    SortKeepsMap(values);
    forall key ensures Get(Reread(values), key) == Get(s, key) {
      assert Get(s, key) == Get(values, key);
    }
    SameMapIsReadBack(values);
    ReadBackIsClean(s);
    CleanInAnyOrder(s, values);
  }

  /** A stack's env file gives back the map it was rendered from if and only if every name is
      clean and every value has no outer blanks, no matching outer quotes, no ` #` and no line
      break. */
  lemma RoundTrip(values: seq<Entry>)
    requires Distinct(values)
    ensures SameMap(Reread(values), values) <==> AllClean(values)
  {
    if AllClean(values) {
      CleanRereads(values);
      SortKeepsMap(values);
    }
    if SameMap(Reread(values), values) {
      SameMapIsClean(values);
    }
  }
}
