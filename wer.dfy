/**
 * Pairing reference transcripts with their ASR hypotheses in a directory
 * listing, and building one report row per pair.
 *
 * The listing is a sequence of names in listing order, the files' contents
 * a map from name to text (a name missing from the map is a file that cannot
 * be read), and werpy's normalisation and error rate are function parameters.
 */
module WerCalculator {
  import opened Wrappers
  import opened Text

  /** The marker that names an ASR transcription. */
  const Marker: string := "_whisper"

  type Normalizer = string -> string
  type Scorer = (string, string) -> real

  // ---------------------------------------------------------------------
  // Filtering in listing order
  // ---------------------------------------------------------------------

  /** The elements of `xs` that `keep` accepts, in their original order. */
  function Filter<T>(xs: seq<T>, keep: T -> bool): (r: seq<T>)
    ensures |r| <= |xs|
  {
    if xs == [] then []
    else
      var last := xs[|xs| - 1];
      Filter(xs[..|xs| - 1], keep) + (if keep(last) then [last] else [])
  }

  /** Filtering keeps exactly the elements `keep` accepts. */
  lemma {:induction false} FilterMembers<T>(xs: seq<T>, keep: T -> bool, x: T)
    ensures x in Filter(xs, keep) <==> x in xs && keep(x)
    decreases |xs|
  {
    if xs != [] {
      FilterMembers(xs[..|xs| - 1], keep, x);
      assert xs == xs[..|xs| - 1] + [xs[|xs| - 1]];
    }
  }

  lemma {:induction false} FilterAppend<T>(a: seq<T>, b: seq<T>, keep: T -> bool)
    ensures Filter(a + b, keep) == Filter(a, keep) + Filter(b, keep)
    decreases |b|
  {
    if b == [] {
      assert a + b == a;
    } else {
      var init := b[..|b| - 1];
      assert (a + b)[..|a + b| - 1] == a + init;
      FilterAppend(a, init, keep);
    }
  }

  // ---------------------------------------------------------------------
  // Names
  // ---------------------------------------------------------------------

  /** A listed name is a reference when it does not contain the marker. */
  predicate IsReference(name: string) {
    !Contains(name, Marker)
  }

  /** Python's `name[:-4]`: the name without its last four characters, empty for short names. */
  function Prefix(name: string): (p: string)
    ensures |p| == if |name| <= 4 then 0 else |name| - 4
    ensures StartsWith(name, p)
  {
    if |name| <= 4 then [] else name[..|name| - 4]
  }

  /** For the usual "<stem>.txt" reference, the prefix is the stem. */
  lemma PrefixDropsExtension(stem: string)
    ensures Prefix(stem + ".txt") == stem
  {
    assert (stem + ".txt")[..|stem|] == stem;
  }

  /** A name that the hypothesis filter for `prefix` accepts. */
  predicate IsHypothesisName(name: string, prefix: string) {
    StartsWith(name, prefix) && Contains(name, Marker)
  }

  predicate IsHypothesisOf(name: string, reference: string) {
    IsHypothesisName(name, Prefix(reference))
  }

  /** The reference filter. */
  function References(files: seq<string>): seq<string> {
    Filter(files, IsReference)
  }

  /** A listed name is kept by the reference filter exactly when it is a reference. */
  lemma ReferencesMembers(files: seq<string>, name: string)
    ensures name in References(files) <==> name in files && IsReference(name)
  {
    FilterMembers(files, IsReference, name);
  }

  /** The hypothesis filter for one reference's prefix. */
  function HypothesesFor(files: seq<string>, prefix: string): seq<string> {
    Filter(files, f => IsHypothesisName(f, prefix))
  }

  /** A listed name is kept by the hypothesis filter exactly when it starts with the prefix and carries the marker. */
  lemma HypothesesForMembers(files: seq<string>, prefix: string, name: string)
    ensures name in HypothesesFor(files, prefix) <==> name in files && StartsWith(name, prefix) && Contains(name, Marker)
  {
    FilterMembers(files, f => IsHypothesisName(f, prefix), name);
  }

  /** No name is both a reference and a hypothesis: the marker decides. */
  lemma HypothesisIsNoReference(name: string, reference: string)
    requires IsHypothesisOf(name, reference)
    ensures !IsReference(name)
    ensures IsReference(reference) ==> name != reference
  {
  }

  /** A reference of at most four characters has an empty prefix, so every marked name is its hypothesis. */
  lemma ShortReferenceMatchesAll(reference: string, name: string)
    requires |reference| <= 4 && Contains(name, Marker)
    ensures IsHypothesisOf(name, reference)
  {
    assert Prefix(reference) == [];
    assert name[..0] == [];
  }

  /**
   * The transcriber's own output for "<stem>.txt" is "<stem>_whisper.txt", and
   * it matches; so does the output for any longer stem that starts with the
   * same characters, e.g. "<stem>2_whisper.txt".
   */
  lemma MarkedNameMatchesStem(stem: string, tail: string)
    ensures IsHypothesisOf(stem + tail + "_whisper.txt", stem + ".txt")
  {
    var name := stem + tail + "_whisper.txt";
    PrefixDropsExtension(stem);
    assert name[..|stem|] == stem;
    assert OccursAt(name, Marker, |stem + tail|) by {
      assert name[|stem + tail|..|stem + tail| + |Marker|] == Marker;
    }
    ContainsIff(name, Marker);
  }

  // ---------------------------------------------------------------------
  // Pairs
  // ---------------------------------------------------------------------

  /** A (reference, hypothesis) pair, one per report row. */
  datatype Pair = Pair(reference: string, hypothesis: string)

  /** `reference` paired with each of `hyps`, in order. */
  function Block(reference: string, hyps: seq<string>): seq<Pair> {
    seq(|hyps|, k requires 0 <= k < |hyps| => Pair(reference, hyps[k]))
  }

  /** The pairs the nested loops visit for the references `refs`, in visiting order. */
  function PairsOf(refs: seq<string>, files: seq<string>): seq<Pair> {
    if refs == [] then []
    else
      var last := refs[|refs| - 1];
      PairsOf(refs[..|refs| - 1], files) + Block(last, HypothesesFor(files, Prefix(last)))
  }

  function Pairs(files: seq<string>): seq<Pair> {
    PairsOf(References(files), files)
  }

  /** Every ordered pair of listed names, the first name varying slowest. */
  function Product(xs: seq<string>, ys: seq<string>): seq<Pair> {
    if xs == [] then []
    else Product(xs[..|xs| - 1], ys) + Block(xs[|xs| - 1], ys)
  }

  predicate Matches(p: Pair) {
    IsReference(p.reference) && IsHypothesisOf(p.hypothesis, p.reference)
  }

  /** The pairs of the product that the two filters accept, in product order. */
  function Matching(ps: seq<Pair>): seq<Pair> {
    Filter(ps, Matches)
  }

  lemma {:induction false} MatchingBlock(x: string, ys: seq<string>)
    ensures Matching(Block(x, ys))
         == if IsReference(x) then Block(x, HypothesesFor(ys, Prefix(x))) else []
    decreases |ys|
  {
    if ys != [] {
      var init := ys[..|ys| - 1];
      var y := ys[|ys| - 1];
      var b := Block(x, ys);
      assert b[..|b| - 1] == Block(x, init);
      assert b[|b| - 1] == Pair(x, y);
      MatchingBlock(x, init);
      var isHyp := f => IsHypothesisName(f, Prefix(x));
      assert HypothesesFor(ys, Prefix(x))
          == HypothesesFor(init, Prefix(x)) + (if isHyp(y) then [y] else []);
      if IsReference(x) && isHyp(y) {
        var h := HypothesesFor(init, Prefix(x));
        assert Block(x, h + [y]) == Block(x, h) + [Pair(x, y)];
      }
    }
  }

  lemma {:induction false} PairsOfMatching(xs: seq<string>, files: seq<string>)
    ensures Matching(Product(xs, files)) == PairsOf(References(xs), files)
    decreases |xs|
  {
    if xs != [] {
      var init := xs[..|xs| - 1];
      var x := xs[|xs| - 1];
      PairsOfMatching(init, files);
      assert Product(xs, files) == Product(init, files) + Block(x, files);
      FilterAppend(Product(init, files), Block(x, files), Matches);
      MatchingBlock(x, files);
      if IsReference(x) {
        var refs := References(init) + [x];
        assert References(xs) == refs;
        assert refs[..|refs| - 1] == References(init);
        assert PairsOf(refs, files) == PairsOf(References(init), files) + Block(x, HypothesesFor(files, Prefix(x)));
      } else {
        assert References(xs) == References(init) + [];
        assert References(init) + [] == References(init);
        assert Matching(Product(init, files)) + [] == Matching(Product(init, files));
      }
    }
  }

  /**
   * The nested loops visit exactly the matching pairs of the listing's
   * product, in the same order and with the same multiplicity.
   */
  lemma PairsAreMatchingProduct(files: seq<string>)
    ensures Pairs(files) == Matching(Product(files, files))
  {
    PairsOfMatching(files, files);
  }

  lemma {:induction false} PairsOfMembers(refs: seq<string>, files: seq<string>, p: Pair)
    ensures p in PairsOf(refs, files) <==>
      p.reference in refs && p.hypothesis in HypothesesFor(files, Prefix(p.reference))
    decreases |refs|
  {
    if refs != [] {
      var init := refs[..|refs| - 1];
      var last := refs[|refs| - 1];
      PairsOfMembers(init, files, p);
      var hs := HypothesesFor(files, Prefix(last));
      if p in Block(last, hs) {
        var k :| 0 <= k < |hs| && Block(last, hs)[k] == p;
      }
      if p.reference == last && p.hypothesis in hs {
        var k :| 0 <= k < |hs| && hs[k] == p.hypothesis;
        assert Block(last, hs)[k] == p;
      }
      assert refs == init + [last];
    }
  }

  /** A pair is reported exactly when its reference is a listed reference and its hypothesis a listed match. */
  lemma PairsMembers(files: seq<string>, p: Pair)
    ensures p in Pairs(files) <==>
      p.reference in files && IsReference(p.reference) &&
      p.hypothesis in files && IsHypothesisOf(p.hypothesis, p.reference)
  {
    PairsOfMembers(References(files), files, p);
    ReferencesMembers(files, p.reference);
    HypothesesForMembers(files, Prefix(p.reference), p.hypothesis);
  }

  /** No reported pair has a reference as its hypothesis, nor a name paired with itself. */
  lemma NoReferenceAsHypothesis(files: seq<string>, p: Pair)
    requires p in Pairs(files)
    ensures !IsReference(p.hypothesis) && p.hypothesis != p.reference
  {
    PairsMembers(files, p);
  }

  // ---------------------------------------------------------------------
  // Rows and the report
  // ---------------------------------------------------------------------

  /** One report row: the two names, the error rate and the two word counts. */
  datatype Row = Row(
    referenceFile: string,
    hypothesisFile: string,
    wordErrorRate: real,
    referenceWordCount: nat,
    asrWordCount: nat)

  /** Why the run stops: a listed file cannot be read. */
  datatype Failure = Unreadable(name: string)

  /** The row for a pair of normalized texts. */
  function MakeRow(reference: string, hypothesis: string, normalizedRef: string,
                   normalizedHyp: string, wer: Scorer): Row
  {
    Row(reference, hypothesis, wer(normalizedRef, normalizedHyp),
        WordCount(normalizedRef), WordCount(normalizedHyp))
  }

  /** The order in which the run reads files: each reference, then its hypotheses. */
  function ReadOrderOf(refs: seq<string>, files: seq<string>): seq<string> {
    if refs == [] then []
    else
      var last := refs[|refs| - 1];
      ReadOrderOf(refs[..|refs| - 1], files) + [last] + HypothesesFor(files, Prefix(last))
  }

  function ReadOrder(files: seq<string>): seq<string> {
    ReadOrderOf(References(files), files)
  }

  /** The first of `names` that cannot be read, if any. */
  function FirstUnreadable(names: seq<string>, contents: map<string, string>): (r: Option<string>)
    ensures r.None? ==> forall k :: 0 <= k < |names| ==> names[k] in contents
    ensures r.Some? ==> r.value !in contents
    ensures r.Some? ==>
      exists i :: 0 <= i < |names| && names[i] == r.value && (forall j :: 0 <= j < i ==> names[j] in contents)
  {
    if names == [] then None
    else
      var init := names[..|names| - 1];
      var last := names[|names| - 1];
      match FirstUnreadable(init, contents)
      case Some(n) => Some(n)
      case None => if last in contents then None else Some(last)
  }

  lemma {:induction false} FirstUnreadableAppend(a: seq<string>, b: seq<string>, contents: map<string, string>)
    ensures FirstUnreadable(a + b, contents)
         == if FirstUnreadable(a, contents).Some? then FirstUnreadable(a, contents) else FirstUnreadable(b, contents)
    decreases |b|
  {
    if b == [] {
      assert a + b == a;
    } else {
      var init := b[..|b| - 1];
      assert (a + b)[..|a + b| - 1] == a + init;
      FirstUnreadableAppend(a, init, contents);
    }
  }

  predicate Readable(pairs: seq<Pair>, contents: map<string, string>) {
    forall k :: 0 <= k < |pairs| ==> pairs[k].reference in contents && pairs[k].hypothesis in contents
  }

  /** The row for a pair whose two files can be read. */
  function RowOf(p: Pair, contents: map<string, string>, normalize: Normalizer, wer: Scorer): Row
    requires p.reference in contents && p.hypothesis in contents
  {
    MakeRow(p.reference, p.hypothesis, normalize(contents[p.reference]), normalize(contents[p.hypothesis]), wer)
  }

  /** The rows for readable pairs, one per pair, in pair order. */
  function RowsOf(pairs: seq<Pair>, contents: map<string, string>, normalize: Normalizer, wer: Scorer): seq<Row>
    requires Readable(pairs, contents)
  {
    seq(|pairs|, k requires 0 <= k < |pairs| && Readable(pairs, contents) => RowOf(pairs[k], contents, normalize, wer))
  }

  /** The rows of the inner loop, for the hypotheses `hyps` of `reference`. */
  function HypothesisRows(reference: string, normalizedRef: string, hyps: seq<string>,
                          contents: map<string, string>, normalize: Normalizer, wer: Scorer): Result<seq<Row>, Failure>
  {
    if hyps == [] then Ok([])
    else
      var hyp := hyps[|hyps| - 1];
      match HypothesisRows(reference, normalizedRef, hyps[..|hyps| - 1], contents, normalize, wer)
      case Err(e) => Err(e)
      case Ok(rows) =>
        if hyp !in contents then Err(Unreadable(hyp))
        else Ok(rows + [MakeRow(reference, hyp, normalizedRef, normalize(contents[hyp]), wer)])
  }

  /** One pass of the outer loop: read the reference, then its hypotheses' rows. */
  function ReferenceRows(reference: string, files: seq<string>, contents: map<string, string>,
                         normalize: Normalizer, wer: Scorer): Result<seq<Row>, Failure>
  {
    if reference !in contents then Err(Unreadable(reference))
    else
      HypothesisRows(reference, normalize(contents[reference]), HypothesesFor(files, Prefix(reference)),
        contents, normalize, wer)
  }

  /** The rows of the outer loop over the references `refs`, stopping at the first failure. */
  function ReportOf(refs: seq<string>, files: seq<string>, contents: map<string, string>,
                    normalize: Normalizer, wer: Scorer): Result<seq<Row>, Failure>
  {
    if refs == [] then Ok([])
    else
      match ReportOf(refs[..|refs| - 1], files, contents, normalize, wer)
      case Err(e) => Err(e)
      case Ok(rows) =>
        match ReferenceRows(refs[|refs| - 1], files, contents, normalize, wer)
        case Err(e) => Err(e)
        case Ok(more) => Ok(rows + more)
  }

  /** What the script produces for a listing: its rows, or the file that stopped it. */
  function Report(files: seq<string>, contents: map<string, string>,
                  normalize: Normalizer, wer: Scorer): Result<seq<Row>, Failure>
  {
    ReportOf(References(files), files, contents, normalize, wer)
  }

  lemma {:induction false} HypothesisRowsErr(reference: string, normalizedRef: string, hyps: seq<string>, j: nat,
                                             contents: map<string, string>, normalize: Normalizer, wer: Scorer)
    requires j <= |hyps| && HypothesisRows(reference, normalizedRef, hyps[..j], contents, normalize, wer).Err?
    ensures HypothesisRows(reference, normalizedRef, hyps, contents, normalize, wer)
         == HypothesisRows(reference, normalizedRef, hyps[..j], contents, normalize, wer)
    decreases |hyps| - j
  {
    if j < |hyps| {
      assert hyps[..j + 1][..j] == hyps[..j];
      HypothesisRowsErr(reference, normalizedRef, hyps, j + 1, contents, normalize, wer);
    } else {
      assert hyps[..j] == hyps;
    }
  }

  lemma {:induction false} ReportOfErr(refs: seq<string>, i: nat, files: seq<string>,
                                       contents: map<string, string>, normalize: Normalizer, wer: Scorer)
    requires i <= |refs| && ReportOf(refs[..i], files, contents, normalize, wer).Err?
    ensures ReportOf(refs, files, contents, normalize, wer) == ReportOf(refs[..i], files, contents, normalize, wer)
    decreases |refs| - i
  {
    if i < |refs| {
      assert refs[..i + 1][..i] == refs[..i];
      ReportOfErr(refs, i + 1, files, contents, normalize, wer);
    } else {
      assert refs[..i] == refs;
    }
  }

  /** The inner loop's outcome: the first unreadable hypothesis, or one row per hypothesis. */
  lemma {:induction false} HypothesisRowsOutcome(reference: string, hyps: seq<string>,
                                                 contents: map<string, string>, normalize: Normalizer, wer: Scorer)
    requires reference in contents
    ensures FirstUnreadable(hyps, contents).Some? ==>
      HypothesisRows(reference, normalize(contents[reference]), hyps, contents, normalize, wer)
      == Err(Unreadable(FirstUnreadable(hyps, contents).value))
    ensures FirstUnreadable(hyps, contents).None? ==>
      Readable(Block(reference, hyps), contents) &&
      HypothesisRows(reference, normalize(contents[reference]), hyps, contents, normalize, wer)
      == Ok(RowsOf(Block(reference, hyps), contents, normalize, wer))
    decreases |hyps|
  {
    if hyps != [] {
      var init := hyps[..|hyps| - 1];
      var hyp := hyps[|hyps| - 1];
      HypothesisRowsOutcome(reference, init, contents, normalize, wer);
      if FirstUnreadable(hyps, contents).None? {
        var b := Block(reference, hyps);
        assert Readable(b, contents);
        assert b[..|b| - 1] == Block(reference, init);
        assert RowsOf(b, contents, normalize, wer)
            == RowsOf(Block(reference, init), contents, normalize, wer) + [RowsOf(b, contents, normalize, wer)[|b| - 1]];
      }
    } else {
      assert Block(reference, hyps) == [];
      assert RowsOf([], contents, normalize, wer) == [];
    }
  }

  lemma RowsOfAppend(a: seq<Pair>, b: seq<Pair>, contents: map<string, string>, normalize: Normalizer, wer: Scorer)
    requires Readable(a, contents) && Readable(b, contents)
    ensures Readable(a + b, contents)
    ensures RowsOf(a + b, contents, normalize, wer) == RowsOf(a, contents, normalize, wer) + RowsOf(b, contents, normalize, wer)
  {
    assert forall k :: 0 <= k < |a| ==> (a + b)[k] == a[k];
    assert forall k :: |a| <= k < |a + b| ==> (a + b)[k] == b[k - |a|];
    var rows := RowsOf(a + b, contents, normalize, wer);
    var ra := RowsOf(a, contents, normalize, wer);
    var rb := RowsOf(b, contents, normalize, wer);
    assert forall k :: 0 <= k < |rows| ==> rows[k] == (ra + rb)[k];
  }

  /** The outer loops' outcome over `refs`, stated through the read order and the pairs. */
  lemma {:induction false} ReportOfOutcome(refs: seq<string>, files: seq<string>,
                                           contents: map<string, string>, normalize: Normalizer, wer: Scorer)
    ensures FirstUnreadable(ReadOrderOf(refs, files), contents).Some? ==>
      ReportOf(refs, files, contents, normalize, wer)
      == Err(Unreadable(FirstUnreadable(ReadOrderOf(refs, files), contents).value))
    ensures FirstUnreadable(ReadOrderOf(refs, files), contents).None? ==>
      Readable(PairsOf(refs, files), contents) &&
      ReportOf(refs, files, contents, normalize, wer) == Ok(RowsOf(PairsOf(refs, files), contents, normalize, wer))
    decreases |refs|
  {
    if refs != [] {
      var init := refs[..|refs| - 1];
      var r := refs[|refs| - 1];
      var hs := HypothesesFor(files, Prefix(r));
      ReportOfOutcome(init, files, contents, normalize, wer);
      FirstUnreadableAppend(ReadOrderOf(init, files) + [r], hs, contents);
      FirstUnreadableAppend(ReadOrderOf(init, files), [r], contents);
      if FirstUnreadable(ReadOrderOf(init, files), contents).None? && r in contents {
        HypothesisRowsOutcome(r, hs, contents, normalize, wer);
        if FirstUnreadable(hs, contents).None? {
          RowsOfAppend(PairsOf(init, files), Block(r, hs), contents, normalize, wer);
        }
      }
    } else {
      assert RowsOf([], contents, normalize, wer) == [];
    }
  }

  /**
   * The run stops at the first file in read order that cannot be read;
   * otherwise it reports one row per pair, in pair order.
   */
  lemma ReportOutcome(files: seq<string>, contents: map<string, string>, normalize: Normalizer, wer: Scorer)
    ensures FirstUnreadable(ReadOrder(files), contents).Some? ==>
      Report(files, contents, normalize, wer) == Err(Unreadable(FirstUnreadable(ReadOrder(files), contents).value))
    ensures FirstUnreadable(ReadOrder(files), contents).None? ==>
      Readable(Pairs(files), contents) &&
      Report(files, contents, normalize, wer) == Ok(RowsOf(Pairs(files), contents, normalize, wer))
  {
    ReportOfOutcome(References(files), files, contents, normalize, wer);
  }

  /**
   * Each reported row holds its pair's names, the error rate of the two
   * normalized texts, unchanged, and their word counts; rows of the same
   * reference carry the same reference word count.
   */
  lemma ReportRows(files: seq<string>, contents: map<string, string>, normalize: Normalizer, wer: Scorer,
                   rows: seq<Row>)
    requires Report(files, contents, normalize, wer) == Ok(rows)
    ensures |rows| == |Pairs(files)|
    ensures forall k :: 0 <= k < |rows| ==>
      var p := Pairs(files)[k];
      p.reference in contents && p.hypothesis in contents &&
      rows[k].referenceFile == p.reference && rows[k].hypothesisFile == p.hypothesis &&
      rows[k].wordErrorRate == wer(normalize(contents[p.reference]), normalize(contents[p.hypothesis])) &&
      rows[k].referenceWordCount == WordCount(normalize(contents[p.reference])) &&
      rows[k].asrWordCount == WordCount(normalize(contents[p.hypothesis]))
    ensures forall k, l :: 0 <= k < |rows| && 0 <= l < |rows| && rows[k].referenceFile == rows[l].referenceFile ==>
      rows[k].referenceWordCount == rows[l].referenceWordCount
  {
    ReportOutcome(files, contents, normalize, wer);
  }

  /** A failed run names a listed file that cannot be read and that the run had to read. */
  lemma ReportFailure(files: seq<string>, contents: map<string, string>, normalize: Normalizer, wer: Scorer,
                      name: string)
    requires Report(files, contents, normalize, wer) == Err(Unreadable(name))
    ensures name in ReadOrder(files) && name !in contents
  {
    ReportOutcome(files, contents, normalize, wer);
  }

  /** One more readable hypothesis adds its row. */
  lemma HypothesisRowsStep(reference: string, normalizedRef: string, hyps: seq<string>, j: nat, rows: seq<Row>,
                           contents: map<string, string>, normalize: Normalizer, wer: Scorer)
    requires j < |hyps| && hyps[j] in contents
    requires HypothesisRows(reference, normalizedRef, hyps[..j], contents, normalize, wer) == Ok(rows)
    ensures HypothesisRows(reference, normalizedRef, hyps[..j + 1], contents, normalize, wer)
         == Ok(rows + [MakeRow(reference, hyps[j], normalizedRef, normalize(contents[hyps[j]]), wer)])
  {
    assert hyps[..j + 1][..j] == hyps[..j];
  }

  /** An unreadable hypothesis ends the inner loop with its name. */
  lemma HypothesisRowsStop(reference: string, normalizedRef: string, hyps: seq<string>, j: nat, rows: seq<Row>,
                           contents: map<string, string>, normalize: Normalizer, wer: Scorer)
    requires j < |hyps| && hyps[j] !in contents
    requires HypothesisRows(reference, normalizedRef, hyps[..j], contents, normalize, wer) == Ok(rows)
    ensures HypothesisRows(reference, normalizedRef, hyps, contents, normalize, wer) == Err(Unreadable(hyps[j]))
  {
    assert hyps[..j + 1][..j] == hyps[..j];
    HypothesisRowsErr(reference, normalizedRef, hyps, j + 1, contents, normalize, wer);
  }

  /** A finished reference adds its rows. */
  lemma ReportOfStep(refs: seq<string>, i: nat, files: seq<string>, rows: seq<Row>, more: seq<Row>,
                     contents: map<string, string>, normalize: Normalizer, wer: Scorer)
    requires i < |refs|
    requires ReportOf(refs[..i], files, contents, normalize, wer) == Ok(rows)
    requires ReferenceRows(refs[i], files, contents, normalize, wer) == Ok(more)
    ensures ReportOf(refs[..i + 1], files, contents, normalize, wer) == Ok(rows + more)
  {
    assert refs[..i + 1][..i] == refs[..i];
  }

  /** A failed reference ends the run with its failure. */
  lemma ReportOfStop(refs: seq<string>, i: nat, files: seq<string>, rows: seq<Row>, e: Failure,
                     contents: map<string, string>, normalize: Normalizer, wer: Scorer)
    requires i < |refs|
    requires ReportOf(refs[..i], files, contents, normalize, wer) == Ok(rows)
    requires ReferenceRows(refs[i], files, contents, normalize, wer) == Err(e)
    ensures ReportOf(refs, files, contents, normalize, wer) == Err(e)
  {
    assert refs[..i + 1][..i] == refs[..i];
    ReportOfErr(refs, i + 1, files, contents, normalize, wer);
  }

  // ---------------------------------------------------------------------
  // The script's loops
  // ---------------------------------------------------------------------

  /**
   * The reference filter and the nested loops: for each reference, read and
   * normalize it, count its words, then read, normalize and score each of
   * its hypotheses, appending one row per hypothesis. The first file that
   * cannot be read ends the run.
   */
  method CalculateWer(files: seq<string>, contents: map<string, string>, normalize: Normalizer, wer: Scorer)
    returns (result: Result<seq<Row>, Failure>)
    ensures result == Report(files, contents, normalize, wer)
  {
    var referenceFiles := References(files);
    var results: seq<Row> := [];
    var i := 0;
    while i < |referenceFiles|
      invariant 0 <= i <= |referenceFiles|
      invariant ReportOf(referenceFiles[..i], files, contents, normalize, wer) == Ok(results)
    {
      var refFile := referenceFiles[i];
      if refFile !in contents {
        ReportOfStop(referenceFiles, i, files, results, Unreadable(refFile), contents, normalize, wer);
        return Err(Unreadable(refFile));
      }
      var referenceText := contents[refFile];
      var normalizedRef := normalize(referenceText);
      var referenceWordCount := WordCount(normalizedRef);
      var prefix := Prefix(refFile);
      var hypothesisFiles := HypothesesFor(files, prefix);
      ghost var before := results;
      ghost var current: seq<Row> := [];
      var j := 0;
      while j < |hypothesisFiles|
        invariant 0 <= j <= |hypothesisFiles|
        invariant HypothesisRows(refFile, normalizedRef, hypothesisFiles[..j], contents, normalize, wer) == Ok(current)
        invariant results == before + current
      {
        var hypFile := hypothesisFiles[j];
        if hypFile !in contents {
          HypothesisRowsStop(refFile, normalizedRef, hypothesisFiles, j, current, contents, normalize, wer);
          ReportOfStop(referenceFiles, i, files, before, Unreadable(hypFile), contents, normalize, wer);
          return Err(Unreadable(hypFile));
        }
        var hypothesisText := contents[hypFile];
        var normalizedHyp := normalize(hypothesisText);
        var asrWordCount := WordCount(normalizedHyp);
        var errorRate := wer(normalizedRef, normalizedHyp);
        var row := Row(refFile, hypFile, errorRate, referenceWordCount, asrWordCount);
        HypothesisRowsStep(refFile, normalizedRef, hypothesisFiles, j, current, contents, normalize, wer);
        results := results + [row];
        current := current + [row];
        j := j + 1;
      }
      assert hypothesisFiles[..j] == hypothesisFiles;
      ReportOfStep(referenceFiles, i, files, before, current, contents, normalize, wer);
      i := i + 1;
    }
    assert referenceFiles[..i] == referenceFiles;
    result := Ok(results);
  }
}
