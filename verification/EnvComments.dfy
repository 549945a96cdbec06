/** What the stack's env file makes of quotes, and of a comment behind a value. */
module EnvComments {
  import opened Wrappers
  import opened PyStrings
  import opened EnvMaps
  import opened StackEnvFile
  import EnvText

  const COMMENT: string := " #"

  lemma CommentIsSolid()
    ensures |COMMENT| == 2 && COMMENT == [' '] + ['#'] && OneLine(COMMENT)
    ensures IsBlank(' ') && !IsBlank('#') && !IsBreak('#') && !IsBreak(' ') && !IsQuote('#')
  {}

  predicate CleanName(key: string) {
    EnvText.Clean(Entry(key, []))
  }

  /** What is read from the line that gives `key` this text. */
  function Read(key: string, text: string): Option<Entry> {
    ParseEntry(EnvText.Render(Entry(key, text)))
  }

  // ------------------------------------------------------------ stripping

  lemma {:induction false} DropAcross(s: string, t: string, n: nat)
    requires n <= |t| && s != [] && EndsWell(s)
    ensures DropBlanks(s + t, |s| + n) == |s| + DropBlanks(t, n)
  {
    if n > 0 && IsBlank(t[n - 1]) {
      DropAcross(s, t, n - 1);
    }
  }

  lemma StripRightAfter(s: string, t: string)
    requires s != [] && EndsWell(s)
    ensures StripRight(s + t) == s + StripRight(t)
  {
    DropAcross(s, t, |t|);
  }

  lemma {:induction false} SkipOneMore(s: string, c: char, i: nat)
    requires i <= |s| && IsBlank(c)
    ensures SkipBlanks(s + [c], i) == if SkipBlanks(s, i) < |s| then SkipBlanks(s, i) else |s| + 1
    decreases |s| - i
  {
    if i < |s| && IsBlank(s[i]) {
      SkipOneMore(s, c, i + 1);
    }
  }

  /** A blank behind a text shows on its left side only when the text has nothing else. */
  lemma StripLeftBlank(s: string, c: char)
    requires IsBlank(c)
    ensures StripLeft(s + [c]) == if StripLeft(s) == [] then [] else StripLeft(s) + [c]
  {
    SkipOneMore(s, c, 0);
  }

  lemma {:induction false} DropPrefix(s: string, c: char, n: nat)
    requires n <= |s|
    ensures DropBlanks(s + [c], n) == DropBlanks(s, n)
  {
    if n > 0 && IsBlank(s[n - 1]) {
      DropPrefix(s, c, n - 1);
    }
  }

  lemma StripBlank(s: string, c: char)
    requires IsBlank(c)
    ensures Strip(s + [c]) == Strip(s)
  {
    StripLeftBlank(s, c);
    if StripLeft(s) != [] {
      DropPrefix(StripLeft(s), c, |StripLeft(s)|);
    }
  }

  lemma StripRightBlank(s: string, c: char)
    requires IsBlank(c)
    ensures StripRight(s + [c]) == StripRight(s)
  {
    DropPrefix(s, c, |s|);
  }

  lemma {:induction false} StripRightFirst(s: string)
    ensures Strip(StripRight(s)) == Strip(s)
  {
    StripRightEnds(s);
    if !EndsWell(s) {
      var front, last := s[..|s| - 1], s[|s| - 1];
      assert s == front + [last];
      StripRightFirst(front);
      StripRightBlank(front, last);
      StripBlank(front, last);
    }
  }

  // ------------------------------------------------------------ one value

  /** A line gives its name the text behind `=`, stripped and unquoted or cut. */
  lemma ValueReads(key: string, text: string)
    requires CleanName(key) && OneLine(text)
    ensures Read(key, text) == Some(Entry(key, Unquoted(Strip(text))))
  {
    var trimmed := StripRight(text);
    StripRightEnds(text);
    StripRightFirst(text);
    RenderTrimmed(key, text);
    EnvText.RenderReadsAsEcho(Entry(key, trimmed));
  }

  /** Blanks at the end of a line make no difference. */
  lemma RenderTrimmed(key: string, text: string)
    ensures EnvText.ParseLine(EnvText.Render(Entry(key, text))) ==
      EnvText.ParseLine(EnvText.Render(Entry(key, StripRight(text))))
  {
    EnvText.EqualsSign();
    StripRightAfter(key + ['='], text);
    StripRightFirst(key + ['='] + text);
  }

  // ------------------------------------------------------------ a comment behind a value

  /** The comment ends in the quote the value begins with. */
  predicate Closes(c: char, comment: string) {
    IsQuote(c) && comment != [] && comment[|comment| - 1] == c
  }

  /** The text before its first ` #`. */
  function Cut(value: string): string {
    StripRight(value[..CommentAt(value, 0)])
  }

  /** What becomes of a text with ` #` and a comment behind it. */
  function CommentedValue(text: string, comment: string): string {
    var value, rest := StripLeft(text), StripRight(comment);
    if value == [] then Cut(['#'] + rest)
    else if Closes(value[0], rest) then value[1..] + COMMENT + rest[..|rest| - 1]
    else Cut(value)
  }

  /** The first ` #` of a commented text: one of its own, or the comment's. */
  lemma {:induction false} CommentAfter(value: string, comment: string, i: nat)
    requires i <= |value|
    ensures CommentAt(value + COMMENT + comment, i) == CommentAt(value, i)
    decreases |value| - i
  {
    CommentIsSolid();
    if i < |value| {
      var text := value + COMMENT + comment;
      assert text[i] == value[i] && (i + 1 < |value| ==> text[i + 1] == value[i + 1]);
      assert i + 1 == |value| ==> text[i + 1] == ' ';
      CommentAfter(value, comment, i + 1);
    }
  }

  /** The text and the blank of ` #`, without the blanks before them. */
  function LeftOf(text: string): string {
    if StripLeft(text) == [] then [] else StripLeft(text) + [' ']
  }

  lemma CommentedLeft(text: string, comment: string)
    ensures StripLeft(text + COMMENT + comment) == LeftOf(text) + (['#'] + comment)
  {
    CommentIsSolid();
    var tail := ['#'] + comment;
    assert text + COMMENT + comment == text + [' '] + tail;
    SkipAcross(text + [' '], tail, 0);
    StripLeftBlank(text, ' ');
  }

  lemma CommentedStrip(text: string, comment: string)
    ensures Strip(text + COMMENT + comment) ==
      if StripLeft(text) == [] then ['#'] + StripRight(comment) else StripLeft(text) + COMMENT + StripRight(comment)
  {
    CommentIsSolid();
    CommentedLeft(text, comment);
    var left := LeftOf(text) + ['#'];
    assert LeftOf(text) + (['#'] + comment) == left + comment;
    StripRightAfter(left, comment);
    LeftOfHash(text);
  }

  lemma LeftOfHash(text: string)
    ensures LeftOf(text) + ['#'] == if StripLeft(text) == [] then ['#'] else StripLeft(text) + COMMENT
  {}

  lemma UncutUnquoted(value: string)
    requires Stripped(value) && !Quoted(value)
    ensures Unquoted(value) == Cut(value)
  {
    StripRightEnds(value);
    assert value[..|value|] == value;
  }

  lemma CommentedUnquoted(value: string, comment: string)
    requires value != [] && StartsWell(value) && EndsWell(comment)
    ensures Unquoted(value + COMMENT + comment) ==
      if Closes(value[0], comment) then value[1..] + COMMENT + comment[..|comment| - 1] else Cut(value)
  {
    CommentIsSolid();
    var text := value + COMMENT + comment;
    assert text[0] == value[0] && text[|text| - 1] == (if comment == [] then '#' else comment[|comment| - 1]);
    CommentAfter(value, comment, 0);
    assert text[..CommentAt(value, 0)] == value[..CommentAt(value, 0)];
    assert Closes(value[0], comment) ==> text[1..|text| - 1] == value[1..] + COMMENT + comment[..|comment| - 1];
  }

  lemma HashUnquoted(comment: string)
    requires EndsWell(comment)
    ensures Unquoted(['#'] + comment) == Cut(['#'] + comment)
  {
    CommentIsSolid();
    var hash := ['#'] + comment;
    assert hash[|hash| - 1] == if comment == [] then '#' else comment[|comment| - 1];
    UncutUnquoted(hash);
  }

  lemma CommentedMeans(text: string, comment: string)
    ensures Unquoted(Strip(text + COMMENT + comment)) == CommentedValue(text, comment)
  {
    CommentedStrip(text, comment);
    StripLeftStarts(text);
    StripRightEnds(comment);
    if StripLeft(text) == [] {
      HashUnquoted(StripRight(comment));
    } else {
      CommentedUnquoted(StripLeft(text), StripRight(comment));
    }
  }

  /** What is read when a comment stands behind any text. */
  lemma CommentReads(key: string, text: string, comment: string)
    requires CleanName(key) && OneLine(text) && OneLine(comment)
    ensures Read(key, text + COMMENT + comment) == Some(Entry(key, CommentedValue(text, comment)))
  {
    CommentIsSolid();
    ValueReads(key, text + COMMENT + comment);
    CommentedMeans(text, comment);
  }

  /** The text is cut at the same place with the blanks behind it or without. */
  lemma {:induction false} CutTrimmed(value: string, n: nat)
    requires n <= |value| && DropBlanks(value, |value|) <= n
    ensures Cut(value[..n]) == Cut(value)
    decreases |value| - n
  {
    if n == |value| {
      assert value[..n] == value;
    } else {
      CutTrimmed(value, n + 1);
      DroppedAreBlank(value, |value|, n);
      CutBlank(value[..n], value[n]);
      assert value[..n] + [value[n]] == value[..n + 1];
    }
  }

  lemma {:induction false} DroppedAreBlank(s: string, n: nat, i: nat)
    requires n <= |s| && DropBlanks(s, n) <= i < n
    ensures IsBlank(s[i])
  {
    if i < n - 1 {
      DroppedAreBlank(s, n - 1, i);
    }
  }

  lemma {:induction false} CommentAtBlank(value: string, c: char, i: nat)
    requires i <= |value| && IsBlank(c)
    ensures CommentAt(value + [c], i) == if CommentAt(value, i) < |value| then CommentAt(value, i) else |value| + 1
    decreases |value| - i
  {
    if i < |value| {
      CommentAtBlank(value, c, i + 1);
    }
  }

  lemma CutBlank(value: string, c: char)
    requires IsBlank(c)
    ensures Cut(value + [c]) == Cut(value)
  {
    CommentAtBlank(value, c, 0);
    var at := CommentAt(value, 0);
    if at < |value| {
      assert (value + [c])[..at] == value[..at];
    } else {
      assert (value + [c])[..|value| + 1] == value + [c] && value[..|value|] == value;
      DropPrefix(value, c, |value|);
    }
  }

  lemma CutShrinks(value: string)
    ensures |Cut(value)| <= CommentAt(value, 0) <= |value|
  {}

  /** Cutting a text never takes its outer quotes off. */
  lemma CutKeepsQuotes(value: string)
    requires Quoted(value)
    ensures Cut(value) != value[1..|value| - 1]
  {
    CommentIsSolid();
    CutShrinks(value);
    var at := CommentAt(value, 0);
    if at == |value| {
      StripRightEnds(value);
      assert value[..at] == value;
    } else {
      assert at + 1 != |value| - 1;
    }
  }

  /** A `#` that begins the value is never cut off. */
  lemma HashStays(comment: string)
    ensures Cut(['#'] + comment) != [] && Cut(['#'] + comment)[0] == '#'
  {
    CommentIsSolid();
    var value := ['#'] + comment;
    var at := CommentAt(value, 0);
    SolidHeadStays(value[..at], at);
  }

  lemma TrimmedHead(value: string)
    requires value != [] && StartsWell(value)
    ensures
      var trimmed := StripRight(value);
      trimmed != [] && trimmed[0] == value[0] && Stripped(trimmed) && Cut(trimmed) == Cut(value)
  {
    SolidHeadStays(value, |value|);
    StripRightEnds(value);
    CutTrimmed(value, |StripRight(value)|);
  }

  /** A comment behind this value, the comment's own blanks stripped, makes no difference. */
  predicate TakesComment(value: string, rest: string) {
    value != [] && !Quoted(value) && !Closes(value[0], rest)
  }

  lemma CommentTellsIff(value: string, comment: string)
    requires value != [] && Stripped(StripRight(value)) && Cut(StripRight(value)) == Cut(value)
    ensures
      var commented :=
        if Closes(value[0], comment) then value[1..] + COMMENT + comment[..|comment| - 1] else Cut(value);
      commented == Unquoted(StripRight(value)) <==> !Quoted(StripRight(value)) && !Closes(value[0], comment)
  {
    var trimmed := StripRight(value);
    UnquotedShrinks(trimmed);
    CommentIsSolid();
    if Closes(value[0], comment) {
      assert |value[1..] + COMMENT + comment[..|comment| - 1]| == |value| + |comment|;
    } else if Quoted(trimmed) {
      CutKeepsQuotes(trimmed);
    } else {
      UncutUnquoted(trimmed);
    }
  }

  lemma CommentTells(text: string, comment: string)
    ensures CommentedValue(text, comment) == Unquoted(Strip(text)) <==> TakesComment(Strip(text), StripRight(comment))
  {
    StripLeftStarts(text);
    var value, rest := StripLeft(text), StripRight(comment);
    if value == [] {
      HashStays(rest);
    } else {
      TrimmedHead(value);
      CommentTellsIff(value, rest);
    }
  }

  /** When a comment makes no difference, for any text and any comment: exactly when the text
      is not blank and not quoted, and does not begin with a quote the comment ends in. */
  lemma CommentIgnoredIff(key: string, text: string, comment: string)
    requires CleanName(key) && OneLine(text) && OneLine(comment)
    ensures Read(key, text + COMMENT + comment) == Read(key, text) <==>
      TakesComment(Strip(text), StripRight(comment))
  {
    CommentReads(key, text, comment);
    ValueReads(key, text);
    CommentTells(text, comment);
  }

  /** A clean value survives a comment unless it is empty or begins with a quote the comment
      ends in, when that quote pair is taken off. */
  lemma CommentDroppedIff(e: Entry, comment: string)
    requires Clean(e) && OneLine(comment)
    ensures Read(e.key, e.value + COMMENT + comment) == Some(e) <==>
      e.value != [] && !Closes(e.value[0], StripRight(comment))
  {
    CleanReads(e);
    StripIsStripped(e.value);
    CommentIgnoredIff(e.key, e.value, comment);
  }

  /** Behind nothing the comment, with its `#`, becomes the value, cut at its own next ` #`. */
  lemma CommentBecomesValue(key: string, comment: string)
    requires CleanName(key) && OneLine(comment)
    ensures Read(key, COMMENT + comment) == Some(Entry(key, Cut(['#'] + StripRight(comment))))
    ensures Cut(['#'] + StripRight(comment)) != [] && Cut(['#'] + StripRight(comment))[0] == '#'
  {
    CommentReads(key, [], comment);
    HashStays(StripRight(comment));
    assert [] + COMMENT == COMMENT;
  }

  lemma QuotedText(value: string, quote: char)
    requires OneLine(value) && IsQuote(quote)
    ensures
      var quoted := [quote] + value + [quote];
      && OneLine(quoted) && Strip(quoted) == quoted && StripLeft(quoted) == quoted && StripRight(quoted) == quoted
      && Quoted(quoted) && quoted[1..|quoted| - 1] == value && quoted[1..] == value + [quote]
  {
    assert !IsBlank(quote) && !IsBreak(quote);
    var quoted := [quote] + value + [quote];
    StripIsStripped(quoted);
    StripLeftStarts(quoted);
    StripRightEnds(quoted);
    assert quoted[1..|quoted| - 1] == value && quoted[1..] == value + [quote];
  }

  /** Between quotes any value without a line break can be written. */
  lemma QuotedReads(key: string, value: string, quote: char)
    requires CleanName(key) && OneLine(value) && (quote == '"' || quote == '\'')
    ensures Read(key, [quote] + value + [quote]) == Some(Entry(key, value))
  {
    QuotedText(value, quote);
    ValueReads(key, [quote] + value + [quote]);
  }

  /** Quotes are taken off only when nothing stands behind them: with any comment behind it no
      quoted value is read back. */
  lemma QuotesStay(key: string, value: string, quote: char, comment: string)
    requires CleanName(key) && OneLine(value) && OneLine(comment) && IsQuote(quote)
    ensures Read(key, [quote] + value + [quote] + COMMENT + comment) != Some(Entry(key, value))
  {
    QuotedText(value, quote);
    QuotedReads(key, value, quote);
    CommentIgnoredIff(key, [quote] + value + [quote], comment);
  }

  /** What is read instead: the text with its quotes, up to a ` #` inside them if there is one,
      unless the comment ends in the same quote and closes the value. */
  lemma QuotesStayAs(key: string, value: string, quote: char, comment: string)
    requires CleanName(key) && OneLine(value) && OneLine(comment) && IsQuote(quote)
    ensures
      var quoted, rest := [quote] + value + [quote], StripRight(comment);
      Read(key, quoted + COMMENT + comment) == Some(Entry(key,
        if Closes(quote, rest) then value + [quote] + COMMENT + rest[..|rest| - 1]
        else if CommentAt(quoted, 0) == |quoted| then quoted
        else Cut(quoted)))
  {
    var quoted := [quote] + value + [quote];
    QuotedText(value, quote);
    CommentReads(key, quoted, comment);
    assert quoted[..|quoted|] == quoted;
  }
}
