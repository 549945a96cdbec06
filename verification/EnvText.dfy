/** The env text of a Dokploy target: `parse_dokploy_env_text` and
    `serialize_dokploy_env_text` in tools/platform/dokploy.py. */
module EnvText {
  import opened Wrappers
  import opened PyStrings
  import opened EnvMaps

  const EXPORT: string := "export "

  predicate Exported(s: string) {
    7 <= |s| && s[..7] == EXPORT
  }

  predicate Commented(s: string) {
    s != [] && s[0] == '#'
  }

  /** The name before the first `=`, and all that follows it. */
  function Assignment(line: string): Option<Entry> {
    var at := IndexOf(line, '=');
    if at == |line| then None else Some(Entry(Strip(line[..at]), line[at + 1..]))
  }

  function Unexported(line: string): string {
    if Exported(line) then Strip(line[7..]) else line
  }

  /** What one line of the text contributes. */
  function ParseLine(raw: Line): Option<Entry> {
    var line := Strip(raw);
    if line == [] || Commented(line) then None else Assignment(Unexported(line))
  }

  function Parse(text: string): seq<Entry> {
    Collect(ParseLine, SplitLines(text))
  }

  function Render(e: Entry): Line {
    e.key + ['='] + e.value
  }

  function Rendered(m: seq<Entry>): seq<Line> {
    seq(|m|, i requires 0 <= i < |m| => Render(m[i]))
  }

  function Print(m: seq<Entry>): string {
    JoinLines(Rendered(m))
  }

  /** `parse_dokploy_env_text`, line by line. */
  method ParseText(text: string) returns (envMap: seq<Entry>)
    ensures envMap == Parse(text)
  {
    envMap := [];
    var lines := SplitLines(text);
    var i := 0;
    while i < |lines|
      invariant i <= |lines| && envMap == Collect(ParseLine, lines[..i])
    {
      CollectNext(ParseLine, lines, i);
      envMap := TakeLine(envMap, lines[i]);
      i := i + 1;
    }
    assert lines[..i] == lines;
  }

  method TakeLine(before: seq<Entry>, raw: Line) returns (envMap: seq<Entry>)
    ensures envMap == Contribute(before, ParseLine(raw))
  {
    envMap := before;
    var e := ReadLine(raw);
    if e.Some? {
      envMap := Put(envMap, e.value);
    }
  }

  /** The body of the loop: the branches that end in `continue` contribute nothing. */
  method ReadLine(raw: Line) returns (e: Option<Entry>)
    ensures e == ParseLine(raw)
  {
    var stripped := Strip(raw);
    if stripped == [] || Commented(stripped) {
      return None;
    }
    if Exported(stripped) {
      stripped := Strip(stripped[7..]);
    }
    var at := IndexOf(stripped, '=');
    if at == |stripped| {
      return None;
    }
    e := Some(Entry(Strip(stripped[..at]), stripped[at + 1..]));
  }

  // ------------------------------------------------------------ what a line can hold

  /** What every parsed entry is like: it fits on a line that splits back where it should. */
  predicate Tidy(e: Entry) {
    && '=' !in e.key && Stripped(e.key) && OneLine(e.key)
    && OneLine(e.value) && EndsWell(e.value)
  }

  /** A name the parser would not read back as it stands. */
  predicate Shadowed(key: string) {
    Commented(key) || Exported(key)
  }

  predicate Clean(e: Entry) {
    Tidy(e) && !Shadowed(e.key)
  }

  ghost predicate AllTidy(m: seq<Entry>) {
    forall i :: 0 <= i < |m| ==> Tidy(m[i])
  }

  ghost predicate AllClean(m: seq<Entry>) {
    forall i :: 0 <= i < |m| ==> Clean(m[i])
  }

  lemma EqualsSign()
    ensures !IsBlank('=') && !IsBreak('=')
  {}

  lemma AssignmentOf(key: string, value: string)
    requires '=' !in key
    ensures Assignment(key + ['='] + value) == Some(Entry(Strip(key), value))
  {
    IndexAfter(key, '=', value);
    var line := key + ['='] + value;
    assert line[..|key|] == key && line[|key| + 1..] == value;
  }

  lemma AssignmentIsTidy(line: string)
    requires Assignment(line).Some? && OneLine(line) && EndsWell(line)
    ensures Tidy(Assignment(line).value)
  {
    var at := IndexOf(line, '=');
    var key := line[..at];
    StripIsStripped(key);
    StripKeepsLine(key);
  }

  lemma UnexportedIsTidy(line: string)
    requires OneLine(line) && Stripped(line)
    ensures OneLine(Unexported(line)) && EndsWell(Unexported(line))
  {
    if Exported(line) {
      StripKeepsLine(line[7..]);
      StripIsStripped(line[7..]);
    }
  }

  lemma ParsedLineIsTidy(raw: Line)
    requires OneLine(raw) && ParseLine(raw).Some?
    ensures Tidy(ParseLine(raw).value)
  {
    StripKeepsLine(raw);
    StripIsStripped(raw);
    UnexportedIsTidy(Strip(raw));
    AssignmentIsTidy(Unexported(Strip(raw)));
  }

  /** A parsed text gives distinct names and tidy entries. */
  lemma ParseIsTidy(text: string)
    ensures Distinct(Parse(text)) && AllTidy(Parse(text))
  {
    var lines := SplitLines(text);
    SplitGivesLines(text);
    CollectBounds(ParseLine, lines);
    forall i | 0 <= i < |Parse(text)| ensures Tidy(Parse(text)[i]) {
      var k := CollectSource(ParseLine, lines, i);
      ParsedLineIsTidy(lines[k]);
    }
  }

  // ------------------------------------------------------------ one printed line

  lemma RenderIsStripped(e: Entry)
    requires Tidy(e)
    ensures Stripped(Render(e)) && OneLine(Render(e)) && Strip(Render(e)) == Render(e)
  {
    EqualsSign();
    StripIsStripped(Render(e));
  }

  /** The parser looks at the head of a line; for a tidy entry the head is its name's. */
  lemma HeadOfRender(e: Entry)
    requires Tidy(e)
    ensures Render(e) != []
    ensures Commented(Render(e)) == Commented(e.key) && Exported(Render(e)) == Exported(e.key)
  {
    var line := Render(e);
    if 7 <= |e.key| {
      assert line[..7] == e.key[..7];
    } else if 7 <= |line| {
      assert line[..7][|e.key|] == '=' && EXPORT[|e.key|] != '=';
    }
  }

  /** How a printed entry is read back. */
  function Echo(e: Entry): Option<Entry> {
    if Commented(e.key) then None
    else if Exported(e.key) then Some(Entry(Strip(e.key[7..]), e.value))
    else Some(e)
  }

  lemma RenderReadsAsEcho(e: Entry)
    requires Tidy(e)
    ensures ParseLine(Render(e)) == Echo(e)
  {
    RenderIsStripped(e);
    HeadOfRender(e);
    if Exported(e.key) {
      UnexportedRender(e);
    } else {
      AssignmentOf(e.key, e.value);
      StripIsStripped(e.key);
    }
  }

  lemma UnexportedRender(e: Entry)
    requires Tidy(e) && Exported(e.key) && Exported(Render(e))
    ensures Assignment(Unexported(Render(e))) == Some(Entry(Strip(e.key[7..]), e.value))
  {
    var name := e.key[7..];
    assert Render(e)[7..] == name + ['='] + e.value;
    StripRendered(name, e.value);
    AssignmentOf(StripLeft(name), e.value);
    StripLeftFirst(name);
  }

  lemma StripRendered(name: string, value: string)
    requires EndsWell(value)
    ensures Strip(name + ['='] + value) == StripLeft(name) + ['='] + value
  {
    EqualsSign();
    StripBefore(name, ['='] + value);
    assert name + ['='] + value == name + (['='] + value);
    assert StripLeft(name) + (['='] + value) == StripLeft(name) + ['='] + value;
  }

  /** A printed line is read back as it stands if and only if its name is not shadowed. */
  lemma EchoIsIdentityIff(e: Entry)
    requires Tidy(e)
    ensures Echo(e) == Some(e) <==> !Shadowed(e.key)
  {
    if Exported(e.key) {
      assert |Strip(e.key[7..])| < |e.key|;
    }
  }

  /** A line that begins with `#` gives nothing, whatever follows. */
  lemma HashGivesNothing(rest: string)
    ensures ParseLine("#" + rest) == None
  {
    StripKeepsHead("#" + rest);
  }

  lemma BehindExport(line: string)
    requires Stripped(line) && line != []
    ensures Exported(EXPORT + line) && Strip(EXPORT + line) == EXPORT + line && !Commented(EXPORT + line)
    ensures Unexported(EXPORT + line) == line
  {
    var longer := EXPORT + line;
    assert longer[..7] == EXPORT && longer[7..] == line && longer[|longer| - 1] == line[|line| - 1];
    assert longer[0] == EXPORT[0];
    StripIsStripped(longer);
    StripIsStripped(line);
  }

  /** A line that begins with `export ` gives what it gives without it. */
  lemma ExportIsDropped(e: Entry)
    requires Clean(e)
    ensures ParseLine("export " + (e.key + "=" + e.value)) == Some(e)
  {
    RenderIsStripped(e);
    assert Render(e) == e.key + "=" + e.value;
    BehindExport(Render(e));
    StripIsStripped(e.key);
    AssignmentOf(e.key, e.value);
  }

  // ------------------------------------------------------------ round trips

  lemma PrintSplits(m: seq<Entry>)
    requires AllTidy(m)
    ensures SplitLines(Print(m)) == Rendered(m)
  {
    forall i | 0 <= i < |m| ensures OneLine(Rendered(m)[i]) && Rendered(m)[i] != [] {
      RenderIsStripped(m[i]);
    }
    SplitJoined(Rendered(m));
  }

  lemma ReadsIffClean(m: seq<Entry>)
    requires AllTidy(m)
    ensures Reads(ParseLine, Rendered(m), m) <==> AllClean(m)
  {
    forall i | 0 <= i < |m| ensures ParseLine(Rendered(m)[i]) == Some(m[i]) <==> Clean(m[i]) {
      RenderReadsAsEcho(m[i]);
      EchoIsIdentityIff(m[i]);
    }
  }

  /** Printing then parsing a dictionary gives it back, in order, if and only if it is clean. */
  lemma RoundTrip(m: seq<Entry>)
    requires Distinct(m)
    ensures Parse(Print(m)) == m <==> AllClean(m)
  {
    ParseIsTidy(Print(m));
    if AllTidy(m) {
      PrintSplits(m);
      ReadsIffClean(m);
      CollectIsIdentityIff(ParseLine, Rendered(m), m);
    }
  }

  /** Parsing, printing and parsing again settles if and only if no parsed name is shadowed. */
  lemma ParsePrintParse(text: string)
    ensures Parse(Print(Parse(text))) == Parse(text) <==>
      (forall i :: 0 <= i < |Parse(text)| ==> !Shadowed(Parse(text)[i].key))
  {
    ParseIsTidy(text);
    RoundTrip(Parse(text));
  }

  /** `export NAME=value` is read back whatever the name. */
  lemma ExportedLineReads(e: Entry)
    requires Tidy(e)
    ensures ParseLine(EXPORT + Render(e)) == Some(e) && OneLine(EXPORT + Render(e))
  {
    RenderIsStripped(e);
    var line := EXPORT + Render(e);
    HeadOfRender(e);
    ExportIsPlain(Render(e));
    StripIsStripped(line);
    assert line[7..] == Render(e);
    AssignmentOf(e.key, e.value);
    StripIsStripped(e.key);
  }

  lemma ExportIsPlain(rest: string)
    requires rest != [] && EndsWell(rest) && OneLine(rest)
    ensures Stripped(EXPORT + rest) && OneLine(EXPORT + rest) && Exported(EXPORT + rest) && !Commented(EXPORT + rest)
  {
    var line := EXPORT + rest;
    assert line[0] == 'e' && line[|line| - 1] == rest[|rest| - 1];
    assert forall i :: 0 <= i < 7 ==> !IsBreak(EXPORT[i]);
    assert line[..7] == EXPORT;
  }

  function ExportLines(m: seq<Entry>): seq<Line> {
    seq(|m|, i requires 0 <= i < |m| => EXPORT + Render(m[i]))
  }

  /** The dictionaries a text can be parsed to are exactly the tidy ones. */
  lemma ParsedExactlyTidy(m: seq<Entry>) returns (text: string)
    requires Distinct(m) && AllTidy(m)
    ensures Parse(text) == m
  {
    var lines := ExportLines(m);
    forall i | 0 <= i < |m| ensures ParseLine(lines[i]) == Some(m[i]) && OneLine(lines[i]) && lines[i] != [] {
      ExportedLineReads(m[i]);
    }
    text := JoinLines(lines);
    SplitJoined(lines);
    CollectReads(ParseLine, lines, m);
  }

}
