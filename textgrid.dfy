/**
 * Turning a transcription into a Praat TextGrid ("ooTextFile", long form)
 * with one interval tier named "whisper".
 *
 * The transcriber's segments and the probed duration arrive already formatted:
 * the script only interpolates them into text, so times are strings here.
 */
module TextGrid {
  import opened Wrappers
  import opened Text

  /** One timed segment of the transcription: its start, its end and its text. */
  datatype Segment = Segment(start: string, end: string, text: string)

  /** What a TextGrid reader sees: intervals inside tiers inside the document. */
  datatype Interval = Interval(xmin: string, xmax: string, text: string)
  datatype Tier = IntervalTier(name: string, xmin: string, xmax: string, size: nat, intervals: seq<Interval>)
  datatype Document = Document(xmin: string, xmax: string, tiers: seq<Tier>)

  // ---------------------------------------------------------------------
  // Writing
  // ---------------------------------------------------------------------

  /** The document header: one tier, spanning 0 to `endtime`, declaring `intervalTotal` intervals. */
  function Header(endtime: string, intervalTotal: nat): string {
    "File type = \"ooTextFile\"" + "\n" +
    "Object class = \"TextGrid\"" + "\n" +
    "" + "\n" +
    "xmin = 0" + "\n" +
    ("xmax = " + endtime) + "\n" +
    "tiers? <exists>" + "\n" +
    "size = 1" + "\n" +
    "item []:" + "\n" +
    "\titem [1]:" + "\n" +
    "\t\tclass = \"IntervalTier\"" + "\n" +
    "\t\tname = \"whisper\"" + "\n" +
    "\t\txmin = 0" + "\n" +
    ("\t\txmax = " + endtime) + "\n" +
    ("\t\tintervals: size = " + NatToString(intervalTotal))
  }

  /** One interval block; the text is stripped and quoted, inner quotes are not escaped. */
  function Item(xmin: string, xmax: string, text: string, intervalNumber: nat): string {
    ("\t\tintervals [" + NatToString(intervalNumber) + "]:") + "\n" +
    ("\t\t\txmin = " + xmin) + "\n" +
    ("\t\t\txmax = " + xmax) + "\n" +
    ("\t\t\ttext = \"" + Strip(text) + "\"")
  }

  /** The end written for segment k: the probed duration for the last segment, its own end otherwise. */
  function XmaxAt(segments: seq<Segment>, endtime: string, k: nat): string
    requires k < |segments|
  {
    if k == |segments| - 1 then endtime else segments[k].end
  }

  /** The interval blocks, numbered from 1, in segment order. */
  function IntervalBlocks(segments: seq<Segment>, endtime: string): seq<string> {
    seq(|segments|, k requires 0 <= k < |segments| =>
      Item(segments[k].start, XmaxAt(segments, endtime, k), segments[k].text, k + 1))
  }

  /** The whole file: the header, then the blocks, separated by single newlines. */
  function TextGridText(segments: seq<Segment>, endtime: string): string {
    Join([Header(endtime, |segments|)] + IntervalBlocks(segments, endtime), '\n')
  }

  lemma IntervalBlocksStep(segments: seq<Segment>, endtime: string, idx: nat, xmax: string)
    requires idx < |segments|
    requires xmax == if idx == |segments| - 1 then endtime else segments[idx].end
    ensures IntervalBlocks(segments, endtime)[..idx + 1]
         == IntervalBlocks(segments, endtime)[..idx] + [Item(segments[idx].start, xmax, segments[idx].text, idx + 1)]
  {
    var blocks := IntervalBlocks(segments, endtime);
    assert XmaxAt(segments, endtime, idx) == xmax;
    assert blocks[idx] == Item(segments[idx].start, xmax, segments[idx].text, idx + 1);
    assert blocks[..idx + 1] == blocks[..idx] + [blocks[idx]];
  }

  /** The intervals the written file describes. */
  function Intervals(segments: seq<Segment>, endtime: string): seq<Interval> {
    seq(|segments|, k requires 0 <= k < |segments| =>
      Interval(segments[k].start, XmaxAt(segments, endtime, k), Strip(segments[k].text)))
  }

  /** No field the file interpolates contains a line break, so every field stays on its own line. */
  predicate LineSafe(segments: seq<Segment>, endtime: string) {
    '\n' !in endtime &&
    forall k :: 0 <= k < |segments| ==>
      '\n' !in segments[k].start && '\n' !in segments[k].end && '\n' !in Strip(segments[k].text)
  }

  /**
   * The build loop and the final join: one block per segment, appended in
   * order, the last segment's end replaced by the probed duration.
   */
  method WriteTextGrid(segments: seq<Segment>, endtime: string) returns (content: string)
    ensures content == TextGridText(segments, endtime)
    ensures segments == [] ==> content == Header(endtime, 0)
  {
    var intervals: seq<string> := [];
    var idx := 0;
    while idx < |segments|
      invariant 0 <= idx <= |segments|
      invariant intervals == IntervalBlocks(segments, endtime)[..idx]
    {
      var segment := segments[idx];
      var xmin := segment.start;
      var xmax := segment.end;
      var text := segment.text;
      if idx == |segments| - 1 {
        xmax := endtime;
      }
      IntervalBlocksStep(segments, endtime, idx, xmax);
      intervals := intervals + [Item(xmin, xmax, text, idx + 1)];
      idx := idx + 1;
    }
    var blocks := IntervalBlocks(segments, endtime);
    assert intervals == blocks by {
      assert |blocks| == |segments|;
      assert blocks[..|segments|] == blocks;
    }
    var intervalTotal := |segments|;
    content := Join([Header(endtime, intervalTotal)] + intervals, '\n');
  }

  // ---------------------------------------------------------------------
  // Reading back
  // ---------------------------------------------------------------------

  /** The first line of `s` and, when a line break ends it, the text after that break. */
  function NextLine(s: string): (r: (string, Option<string>))
    ensures r.1.Some? ==> |r.1.value| < |s|
  {
    if s == [] then ("", None)
    else if s[0] == '\n' then ("", Some(s[1..]))
    else
      var (first, rest) := NextLine(s[1..]);
      ([s[0]] + first, rest)
  }

  /** The text of `line` between `open` and `close`, when the line has that shape. */
  function Between(line: string, open: string, close: string): (r: Option<string>)
    ensures r.Some? ==> line == open + r.value + close
  {
    if |open| + |close| <= |line| && StartsWith(line, open) && EndsWith(line, close) then
      var v := line[|open|..|line| - |close|];
      assert line == line[..|open|] + v + line[|line| - |close|..];
      Some(v)
    else None
  }

  /**
   * A reading position: the text from the start of the next line on, or None
   * once the last line has been read.
   */
  type Cursor = Option<string>

  function CursorSize(cursor: Cursor): nat {
    if cursor.Some? then |cursor.value| + 1 else 0
  }

  /** Reads one line that must be exactly `line`; gives the position after it. */
  function ExpectLine(cursor: Cursor, line: string): (r: Option<Cursor>)
    ensures r.Some? ==> CursorSize(r.value) < CursorSize(cursor)
  {
    if cursor.None? then None
    else
      var (first, rest) := NextLine(cursor.value);
      if first == line then Some(rest) else None
  }

  /** Reads one line of the form open + value + close; gives the value and the position after it. */
  function ReadField(cursor: Cursor, open: string, close: string): (r: Option<(string, Cursor)>)
    ensures r.Some? ==> CursorSize(r.value.1) < CursorSize(cursor)
  {
    if cursor.None? then None
    else
      var (first, rest) := NextLine(cursor.value);
      var v :- Between(first, open, close);
      Some((v, rest))
  }

  /** Reads one numbered interval block: its number line, then xmin, xmax and the quoted text. */
  function ReadBlock(cursor: Cursor, number: nat): (r: Option<(Interval, Cursor)>)
    ensures r.Some? ==> CursorSize(r.value.1) < CursorSize(cursor)
  {
    var numeral :- ReadField(cursor, "\t\tintervals [", "]:");
    var n :- ParseNat(numeral.0);
    if n != number then None
    else
      var xmin :- ReadField(numeral.1, "\t\t\txmin = ", "");
      var xmax :- ReadField(xmin.1, "\t\t\txmax = ", "");
      var text :- ReadField(xmax.1, "\t\t\ttext = \"", "\"");
      Some((Interval(xmin.0, xmax.0, text.0), text.1))
  }

  /** Reads interval blocks up to the end of the file, expecting them numbered from `number` on. */
  function ReadIntervals(cursor: Cursor, number: nat): Option<seq<Interval>>
    decreases CursorSize(cursor)
  {
    if cursor.None? then Some([])
    else
      var block :- ReadBlock(cursor, number);
      var rest :- ReadIntervals(block.1, number + 1);
      Some([block.0] + rest)
  }

  /** The file's first five lines: the type and class lines, a blank line, the document's xmin and xmax. */
  function ReadPreamble(cursor: Cursor): (r: Option<(string, string, Cursor)>) {
    var l1 :- ExpectLine(cursor, "File type = \"ooTextFile\"");
    var l2 :- ExpectLine(l1, "Object class = \"TextGrid\"");
    var l3 :- ExpectLine(l2, "");
    var xmin :- ReadField(l3, "xmin = ", "");
    var xmax :- ReadField(xmin.1, "xmax = ", "");
    Some((xmin.0, xmax.0, xmax.1))
  }

  /** The fixed lines announcing a single interval tier. */
  function ReadTierStart(cursor: Cursor): (r: Option<Cursor>) {
    var l6 :- ExpectLine(cursor, "tiers? <exists>");
    var l7 :- ExpectLine(l6, "size = 1");
    var l8 :- ExpectLine(l7, "item []:");
    var l9 :- ExpectLine(l8, "\titem [1]:");
    ExpectLine(l9, "\t\tclass = \"IntervalTier\"")
  }

  /** The tier's name, bounds and declared interval count; its intervals are read separately. */
  function ReadTierFields(cursor: Cursor): (r: Option<(Tier, Cursor)>) {
    var name :- ReadField(cursor, "\t\tname = \"", "\"");
    var xmin :- ReadField(name.1, "\t\txmin = ", "");
    var xmax :- ReadField(xmin.1, "\t\txmax = ", "");
    var numeral :- ReadField(xmax.1, "\t\tintervals: size = ", "");
    var size :- ParseNat(numeral.0);
    Some((IntervalTier(name.0, xmin.0, xmax.0, size, []), numeral.1))
  }

  /**
   * A line-by-line reader for the single-tier long TextGrid form: it checks
   * the fixed lines, reads the document's and the tier's bounds, the tier's
   * name and declared size, then numbered interval blocks to the end.
   */
  function ReadTextGrid(content: string): Option<Document> {
    var preamble :- ReadPreamble(Some(content));
    var tierStart :- ReadTierStart(preamble.2);
    var tier :- ReadTierFields(tierStart);
    var intervals :- ReadIntervals(tier.1, 1);
    Some(Document(preamble.0, preamble.1, [tier.0.(intervals := intervals)]))
  }

  // ---------------------------------------------------------------------
  // The written file reads back as the intervals it was built from
  // ---------------------------------------------------------------------

  /** A line followed by the rest of the text, if any. */
  function Continue(line: string, rest: Cursor): string {
    if rest.None? then line else line + "\n" + rest.value
  }

  /** Where reading continues after the blocks before `blocks` have been read. */
  function After(blocks: seq<string>): Cursor {
    if blocks == [] then None else Some(Join(blocks, '\n'))
  }

  lemma {:induction false} JoinFront(blocks: seq<string>)
    requires blocks != []
    ensures Join(blocks, '\n') == Continue(blocks[0], After(blocks[1..]))
  {
  }

  lemma {:induction false} NextLineOf(line: string, rest: Cursor)
    requires '\n' !in line
    ensures NextLine(Continue(line, rest)) == (line, rest)
  {
    var s := Continue(line, rest);
    if line == [] {
      if rest.Some? {
        assert s[1..] == rest.value;
      }
    } else {
      assert line[0] != '\n' && '\n' !in line[1..];
      assert s[0] == line[0];
      assert s[1..] == Continue(line[1..], rest);
      NextLineOf(line[1..], rest);
      assert [line[0]] + line[1..] == line;
    }
  }

  lemma ExpectLineOf(line: string, rest: Cursor)
    requires '\n' !in line
    ensures ExpectLine(Some(Continue(line, rest)), line) == Some(rest)
  {
    NextLineOf(line, rest);
  }

  lemma BetweenOf(open: string, value: string, close: string)
    ensures Between(open + value + close, open, close) == Some(value)
  {
    var line := open + value + close;
    assert line[..|open|] == open;
    assert line[|line| - |close|..] == close;
    assert line[|open|..|line| - |close|] == value;
  }

  lemma ReadFieldOf(open: string, value: string, close: string, rest: Cursor)
    requires '\n' !in open + value + close
    ensures ReadField(Some(Continue(open + value + close, rest)), open, close) == Some((value, rest))
  {
    NextLineOf(open + value + close, rest);
    BetweenOf(open, value, close);
  }

  lemma ReadOpenFieldOf(open: string, value: string, rest: Cursor)
    requires '\n' !in open + value
    ensures ReadField(Some(Continue(open + value, rest)), open, "") == Some((value, rest))
  {
    assert open + value + "" == open + value;
    ReadFieldOf(open, value, "", rest);
  }

  lemma NumeralHasNoNewline(n: nat)
    ensures '\n' !in NatToString(n)
  {
    var s := NatToString(n);
    assert forall i :: 0 <= i < |s| ==> s[i] != '\n' by {
      forall i | 0 <= i < |s| ensures s[i] != '\n' {
        assert IsDigit(s[i]);
      }
    }
  }

  /** Interval block `n`, continued by `rest`, is its four lines in order: number, xmin, xmax, quoted stripped text. */
  lemma ItemLines(xmin: string, xmax: string, text: string, n: nat, rest: Cursor)
    ensures Continue(Item(xmin, xmax, text, n), rest)
         == Continue("\t\tintervals [" + NatToString(n) + "]:",
            Some(Continue("\t\t\txmin = " + xmin,
            Some(Continue("\t\t\txmax = " + xmax,
            Some(Continue("\t\t\ttext = \"" + Strip(text) + "\"", rest)))))))
  {
    var a, b, c, d := "\t\tintervals [" + NatToString(n) + "]:", "\t\t\txmin = " + xmin,
      "\t\t\txmax = " + xmax, "\t\t\ttext = \"" + Strip(text) + "\"";
    assert Item(xmin, xmax, text, n) == a + "\n" + b + "\n" + c + "\n" + d;
    var nd := Continue(d, rest);
    if rest.Some? {
      Regroup(a + "\n" + b + "\n" + c, d, rest.value);
    }
    Regroup(a + "\n" + b, c, nd);
    Regroup(a, b, Continue(c, Some(nd)));
  }

  /** A written block reads back as its interval. */
  lemma ReadBlockOf(iv: Interval, number: nat, rest: Cursor)
    requires '\n' !in iv.xmin && '\n' !in iv.xmax && '\n' !in iv.text
    ensures ReadBlock(Some(Continue("\t\tintervals [" + NatToString(number) + "]:",
                      Some(Continue("\t\t\txmin = " + iv.xmin,
                      Some(Continue("\t\t\txmax = " + iv.xmax,
                      Some(Continue("\t\t\ttext = \"" + iv.text + "\"", rest)))))))), number)
         == Some((iv, rest))
  {
    var rd := Continue("\t\t\ttext = \"" + iv.text + "\"", rest);
    var rc := Continue("\t\t\txmax = " + iv.xmax, Some(rd));
    var rb := Continue("\t\t\txmin = " + iv.xmin, Some(rc));
    NumeralHasNoNewline(number);
    ReadFieldOf("\t\tintervals [", NatToString(number), "]:", Some(rb));
    ParseNatToString(number);
    ReadOpenFieldOf("\t\t\txmin = ", iv.xmin, Some(rc));
    ReadOpenFieldOf("\t\t\txmax = ", iv.xmax, Some(rd));
    ReadFieldOf("\t\t\ttext = \"", iv.text, "\"", rest);
  }

  /** The text from block k on is block k's four lines followed by the later blocks. */
  lemma BlocksFrom(segments: seq<Segment>, endtime: string, k: nat)
    requires k < |segments|
    ensures var iv := Intervals(segments, endtime)[k];
      After(IntervalBlocks(segments, endtime)[k..])
      == Some(Continue("\t\tintervals [" + NatToString(k + 1) + "]:",
              Some(Continue("\t\t\txmin = " + iv.xmin,
              Some(Continue("\t\t\txmax = " + iv.xmax,
              Some(Continue("\t\t\ttext = \"" + iv.text + "\"",
                After(IntervalBlocks(segments, endtime)[k + 1..])))))))))
  {
    var blocks := IntervalBlocks(segments, endtime);
    assert blocks[k] == Item(segments[k].start, XmaxAt(segments, endtime, k), segments[k].text, k + 1);
    JoinFront(blocks[k..]);
    assert blocks[k..][1..] == blocks[k + 1..];
    ItemLines(segments[k].start, XmaxAt(segments, endtime, k), segments[k].text, k + 1, After(blocks[k + 1..]));
  }

  /** Interval k's fields stay on their lines when the segments are line-safe. */
  lemma IntervalOnItsLines(segments: seq<Segment>, endtime: string, k: nat)
    requires LineSafe(segments, endtime) && k < |segments|
    ensures var iv := Intervals(segments, endtime)[k];
      '\n' !in iv.xmin && '\n' !in iv.xmax && '\n' !in iv.text
  {
  }

  lemma IntervalsFrom(segments: seq<Segment>, endtime: string, k: nat)
    requires k < |segments|
    ensures Intervals(segments, endtime)[k..]
         == [Intervals(segments, endtime)[k]] + Intervals(segments, endtime)[k + 1..]
  {
  }

  /** The blocks from segment k on read back as the intervals from k on. */
  lemma {:induction false} ReadBlocks(segments: seq<Segment>, endtime: string, k: nat)
    requires LineSafe(segments, endtime) && k <= |segments|
    ensures ReadIntervals(After(IntervalBlocks(segments, endtime)[k..]), k + 1)
         == Some(Intervals(segments, endtime)[k..])
    decreases |segments| - k
  {
    var blocks := IntervalBlocks(segments, endtime);
    var ivs := Intervals(segments, endtime);
    if k == |segments| {
      assert blocks[k..] == [];
      assert ivs[k..] == [];
    } else {
      var iv := ivs[k];
      BlocksFrom(segments, endtime, k);
      IntervalOnItsLines(segments, endtime, k);
      IntervalsFrom(segments, endtime, k);
      ReadBlockOf(iv, k + 1, After(blocks[k + 1..]));
      ReadBlocks(segments, endtime, k + 1);
    }
  }

  lemma PreambleLiterals()
    ensures '\n' !in "File type = \"ooTextFile\"" && '\n' !in "Object class = \"TextGrid\"" && '\n' !in ""
    ensures "xmin = 0" == "xmin = " + "0" && '\n' !in "xmin = 0" && '\n' !in "xmax = "
  {
  }

  lemma TierStartLiterals()
    ensures '\n' !in "tiers? <exists>" && '\n' !in "size = 1" && '\n' !in "item []:"
    ensures '\n' !in "\titem [1]:" && '\n' !in "\t\tclass = \"IntervalTier\""
  {
  }

  lemma ReadPreambleOf(endtime: string, rest: Cursor)
    requires '\n' !in endtime
    ensures ReadPreamble(Some(Continue("File type = \"ooTextFile\"",
           Some(Continue("Object class = \"TextGrid\"",
           Some(Continue("",
           Some(Continue("xmin = 0",
           Some(Continue("xmax = " + endtime, rest)))))))))))
         == Some(("0", endtime, rest))
  {
    var c4 := Continue("xmax = " + endtime, rest);
    var c3 := Continue("xmin = 0", Some(c4));
    var c2 := Continue("", Some(c3));
    var c1 := Continue("Object class = \"TextGrid\"", Some(c2));
    PreambleLiterals();
    ExpectLineOf("File type = \"ooTextFile\"", Some(c1));
    ExpectLineOf("Object class = \"TextGrid\"", Some(c2));
    ExpectLineOf("", Some(c3));
    ReadOpenFieldOf("xmin = ", "0", Some(c4));
    ReadOpenFieldOf("xmax = ", endtime, rest);
  }

  lemma ReadTierStartOf(rest: Cursor)
    ensures ReadTierStart(Some(Continue("tiers? <exists>",
           Some(Continue("size = 1",
           Some(Continue("item []:",
           Some(Continue("\titem [1]:",
           Some(Continue("\t\tclass = \"IntervalTier\"", rest)))))))))))
         == Some(rest)
  {
    var c9 := Continue("\t\tclass = \"IntervalTier\"", rest);
    var c8 := Continue("\titem [1]:", Some(c9));
    var c7 := Continue("item []:", Some(c8));
    var c6 := Continue("size = 1", Some(c7));
    TierStartLiterals();
    ExpectLineOf("tiers? <exists>", Some(c6));
    ExpectLineOf("size = 1", Some(c7));
    ExpectLineOf("item []:", Some(c8));
    ExpectLineOf("\titem [1]:", Some(c9));
    ExpectLineOf("\t\tclass = \"IntervalTier\"", rest);
  }

  lemma TierFieldLiterals()
    ensures "\t\tname = \"whisper\"" == "\t\tname = \"" + "whisper" + "\""
    ensures "\t\txmin = 0" == "\t\txmin = " + "0"
    ensures '\n' !in "\t\tname = \"whisper\"" && '\n' !in "\t\txmin = 0" && '\n' !in "\t\txmax = "
    ensures '\n' !in "\t\tintervals: size = "
  {
  }

  lemma ReadTierFieldsOf(endtime: string, n: nat, rest: Cursor)
    requires '\n' !in endtime
    ensures ReadTierFields(Some(Continue("\t\tname = \"whisper\"",
           Some(Continue("\t\txmin = 0",
           Some(Continue("\t\txmax = " + endtime,
           Some(Continue("\t\tintervals: size = " + NatToString(n), rest)))))))))
         == Some((IntervalTier("whisper", "0", endtime, n, []), rest))
  {
    var c13 := Continue("\t\tintervals: size = " + NatToString(n), rest);
    var c12 := Continue("\t\txmax = " + endtime, Some(c13));
    var c11 := Continue("\t\txmin = 0", Some(c12));
    var c10 := Continue("\t\tname = \"whisper\"", Some(c11));
    NumeralHasNoNewline(n);
    TierFieldLiterals();
    ReadFieldOf("\t\tname = \"", "whisper", "\"", Some(c11));
    ReadOpenFieldOf("\t\txmin = ", "0", Some(c12));
    ReadOpenFieldOf("\t\txmax = ", endtime, Some(c13));
    ReadOpenFieldOf("\t\tintervals: size = ", NatToString(n), rest);
    ParseNatToString(n);
  }

  lemma Regroup(a: string, b: string, t: string)
    ensures a + "\n" + b + "\n" + t == a + "\n" + (b + "\n" + t)
  {
  }

  /** The header continued by `tail` is its fourteen lines continued by `tail`. */
  lemma HeaderLines(endtime: string, n: nat, tail: Cursor)
    ensures Continue(Header(endtime, n), tail)
         == Continue("File type = \"ooTextFile\"",
            Some(Continue("Object class = \"TextGrid\"",
            Some(Continue("",
            Some(Continue("xmin = 0",
            Some(Continue("xmax = " + endtime,
            Some(Continue("tiers? <exists>",
            Some(Continue("size = 1",
            Some(Continue("item []:",
            Some(Continue("\titem [1]:",
            Some(Continue("\t\tclass = \"IntervalTier\"",
            Some(Continue("\t\tname = \"whisper\"",
            Some(Continue("\t\txmin = 0",
            Some(Continue("\t\txmax = " + endtime,
            Some(Continue("\t\tintervals: size = " + NatToString(n), tail)))))))))))))))))))))))))))
  {
    var g0 := "File type = \"ooTextFile\"";
    var g1 := g0 + "\n" + "Object class = \"TextGrid\"";
    var g2 := g1 + "\n" + "";
    var g3 := g2 + "\n" + "xmin = 0";
    var g4 := g3 + "\n" + ("xmax = " + endtime);
    var g5 := g4 + "\n" + "tiers? <exists>";
    var g6 := g5 + "\n" + "size = 1";
    var g7 := g6 + "\n" + "item []:";
    var g8 := g7 + "\n" + "\titem [1]:";
    var g9 := g8 + "\n" + "\t\tclass = \"IntervalTier\"";
    var g10 := g9 + "\n" + "\t\tname = \"whisper\"";
    var g11 := g10 + "\n" + "\t\txmin = 0";
    var g12 := g11 + "\n" + ("\t\txmax = " + endtime);
    var g13 := g12 + "\n" + ("\t\tintervals: size = " + NatToString(n));
    assert g13 == Header(endtime, n);
    var n13 := Continue(("\t\tintervals: size = " + NatToString(n)), tail);
    var n12 := Continue(("\t\txmax = " + endtime), Some(n13));
    var n11 := Continue("\t\txmin = 0", Some(n12));
    var n10 := Continue("\t\tname = \"whisper\"", Some(n11));
    var n9 := Continue("\t\tclass = \"IntervalTier\"", Some(n10));
    var n8 := Continue("\titem [1]:", Some(n9));
    var n7 := Continue("item []:", Some(n8));
    var n6 := Continue("size = 1", Some(n7));
    var n5 := Continue("tiers? <exists>", Some(n6));
    var n4 := Continue(("xmax = " + endtime), Some(n5));
    var n3 := Continue("xmin = 0", Some(n4));
    var n2 := Continue("", Some(n3));
    var n1 := Continue("Object class = \"TextGrid\"", Some(n2));
    var n0 := Continue("File type = \"ooTextFile\"", Some(n1));
    if tail.Some? {
      Regroup(g12, ("\t\tintervals: size = " + NatToString(n)), tail.value);
    }
    Regroup(g11, ("\t\txmax = " + endtime), n13);
    Regroup(g10, "\t\txmin = 0", n12);
    Regroup(g9, "\t\tname = \"whisper\"", n11);
    Regroup(g8, "\t\tclass = \"IntervalTier\"", n10);
    Regroup(g7, "\titem [1]:", n9);
    Regroup(g6, "item []:", n8);
    Regroup(g5, "size = 1", n7);
    Regroup(g4, "tiers? <exists>", n6);
    Regroup(g3, ("xmax = " + endtime), n5);
    Regroup(g2, "xmin = 0", n4);
    Regroup(g1, "", n3);
    Regroup(g0, "Object class = \"TextGrid\"", n2);
  }

  /** The file written for some segments reads back as one "whisper" tier holding their intervals. */
  lemma ReadWritten(segments: seq<Segment>, endtime: string)
    requires LineSafe(segments, endtime)
    ensures ReadTextGrid(TextGridText(segments, endtime)) == Some(Document("0", endtime,
      [IntervalTier("whisper", "0", endtime, |segments|, Intervals(segments, endtime))]))
  {
    var n := |segments|;
    var blocks := IntervalBlocks(segments, endtime);
    var tail := After(blocks);
    JoinFront([Header(endtime, n)] + blocks);
    assert ([Header(endtime, n)] + blocks)[1..] == blocks;
    HeaderLines(endtime, n, tail);
    var c13 := Continue("\t\tintervals: size = " + NatToString(n), tail);
    var c12 := Continue("\t\txmax = " + endtime, Some(c13));
    var c11 := Continue("\t\txmin = 0", Some(c12));
    var c10 := Continue("\t\tname = \"whisper\"", Some(c11));
    var c9 := Continue("\t\tclass = \"IntervalTier\"", Some(c10));
    var c8 := Continue("\titem [1]:", Some(c9));
    var c7 := Continue("item []:", Some(c8));
    var c6 := Continue("size = 1", Some(c7));
    var c5 := Continue("tiers? <exists>", Some(c6));
    var c4 := Continue("xmax = " + endtime, Some(c5));
    var c3 := Continue("xmin = 0", Some(c4));
    var c2 := Continue("", Some(c3));
    var c1 := Continue("Object class = \"TextGrid\"", Some(c2));
    var c0 := Continue("File type = \"ooTextFile\"", Some(c1));
    ReadPreambleOf(endtime, Some(c5));
    ReadTierStartOf(Some(c10));
    ReadTierFieldsOf(endtime, n, tail);
    ReadBlocks(segments, endtime, 0);
    assert blocks[0..] == blocks;
    assert Intervals(segments, endtime)[0..] == Intervals(segments, endtime);
  }

  /**
   * Read back field by field: interval k keeps segment k's start and its
   * stripped text, and ends at segment k's end, except the last interval,
   * which ends at the probed duration.
   */
  lemma ReadBackFields(segments: seq<Segment>, endtime: string, k: nat)
    requires LineSafe(segments, endtime) && k < |segments|
    ensures var doc := ReadTextGrid(TextGridText(segments, endtime));
      doc.Some? && |doc.value.tiers| == 1 && |doc.value.tiers[0].intervals| == |segments| &&
      doc.value.tiers[0].size == |segments| &&
      doc.value.tiers[0].intervals[k].xmin == segments[k].start &&
      doc.value.tiers[0].intervals[k].text == Strip(segments[k].text) &&
      doc.value.tiers[0].intervals[k].xmax == if k == |segments| - 1 then endtime else segments[k].end
  {
    ReadWritten(segments, endtime);
  }
}
