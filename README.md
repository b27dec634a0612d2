# Whisper transcription utilities — a Dafny model

This project models the two pieces of logic that belong to the whisper scripts themselves and proves what they promise.

- **TextGrid assembly** (`whisper_to_textgrid.py`). The script takes the timed segments a transcription produced and the probed audio duration. It writes a Praat TextGrid in the long "ooTextFile" form, with a single IntervalTier named `whisper`. It emits:
  - a fixed header that declares the interval count;
  - one numbered block per segment, with the text stripped of surrounding whitespace;
  - the last block's `xmax` replaced by the duration.

  Everything is joined with single newlines.
- **WER report construction** (`wer_calculator_directory.py`). The script works over a directory listing.
  - A name without `_whisper` is a reference.
  - Each reference's prefix is its name minus its last four characters.
  - Its hypotheses are the listed names that start with that prefix and contain `_whisper`.
  - For each such pair, in listing order, it emits a row with the two names, the error rate of the two normalized texts and both word counts (`len(text.split())`).
  - The first file that cannot be read ends the run.

Modules:

- **`Wrappers`**: `Option` and `Result`.
- **`Text`**: the parts of Python's `str` the scripts use:
  - `strip()` and `split()`, whose whitespace is the `str.isspace` set;
  - `in` and `startswith`;
  - `'\n'.join`, with splitting on `'\n'` modelled only as its inverse;
  - `str` of an integer.
- **`TextGrid`**:
  - the writer, with the build loop as a method;
  - a line-based TextGrid reader, which is the writer's partner;
  - the proof that the written file reads back as the segments' intervals.
- **`WerCalculator`**:
  - the two filters;
  - the pairing, with a declarative partner: the matching pairs of the listing's cartesian product;
  - the report as a specification function, with a declarative partner: either the first unreadable file in read order, or one row per pair;
  - the nested loops as a method proved equal to that specification.

Timestamps and the duration are opaque, already formatted strings, because the script only interpolates them. The contents of the files are a map from name to text, and a name missing from the map cannot be read. `werpy.normalize` and `werpy.wer` are function parameters.

## Model

| member | source | states |
|---|---|---|
| TextGrid.Header | whisper_to_textgrid.py:29-42 | Definition of `textgrid_header`; its line structure is stated by `TextGrid.HeaderLines` and what it declares by `TextGrid.ReadWritten`. |
| TextGrid.Item | whisper_to_textgrid.py:44-48 | Definition of `textgrid_item`; its four lines are stated by `TextGrid.ItemLines` and their reading by `TextGrid.ReadBlockOf`. |
| TextGrid.IntervalBlocks | whisper_to_textgrid.py:55-63 | Definition of the list the build loop fills; `TextGrid.WriteTextGrid` is proved to build it and `TextGrid.ReadBlocks` states what it reads back as. |
| TextGrid.TextGridText | whisper_to_textgrid.py:65-67 | Definition of the joined content; its meaning is stated by `TextGrid.ReadWritten` and `TextGrid.ReadBackFields`. |
| TextGrid.WriteTextGrid | whisper_to_textgrid.py:55-67 | The loop plus the join produce the header (declaring `len(segments)` intervals) followed by one block per segment, in order, separated by single newlines with no trailing newline. An empty segment list yields the header alone, declaring 0 intervals. |
| TextGrid.IntervalBlocksStep | whisper_to_textgrid.py:56-63 | Iteration `idx` appends block number `idx+1` built from segment `idx`'s start and text. Its end is the probed duration when `idx` is the last index and the segment's own end otherwise. |
| TextGrid.ReadWritten | whisper_to_textgrid.py:29-67 | Read back, the written file is one document spanning `0` to the duration with exactly one tier. That tier is named `whisper`, spans `0` to the duration, declares a size equal to the number of segments, and holds exactly one interval per segment: its start, its end (the last one replaced by the duration) and its stripped text, numbered 1, 2, … in order. |
| TextGrid.ReadBackFields | whisper_to_textgrid.py:55-63 | In the file read back, the count matches the segments. Interval k has segment k's start and stripped text. Its end is the duration for the last interval and segment k's end, unchanged, for every other one. |
| TextGrid.HeaderLines | whisper_to_textgrid.py:29-42 | The header is exactly its fourteen lines in order: file type, object class, a blank line, document `xmin = 0` and `xmax = <duration>`, `tiers? <exists>`, `size = 1`, `item []:`, `item [1]:`, class `IntervalTier`, name `whisper`, tier `xmin = 0`, tier `xmax = <duration>`, and `intervals: size = <n>`. |
| TextGrid.ReadPreambleOf | whisper_to_textgrid.py:30-33 | The header's first five lines give the document's bounds `0` and the duration. |
| TextGrid.ReadTierStartOf | whisper_to_textgrid.py:34-38 | The header declares exactly one tier of class `IntervalTier`. |
| TextGrid.ReadTierFieldsOf | whisper_to_textgrid.py:39-42 | The tier lines give name `whisper`, bounds `0` and the duration, and the declared count `n`, read back through `str(n)`. |
| TextGrid.ItemLines | whisper_to_textgrid.py:44-48 | `Item(xmin, xmax, text, n)` followed by any rest is exactly four lines in order: `intervals [n]:`, `xmin = <xmin>`, `xmax = <xmax>` and `text = "<stripped text>"`. |
| TextGrid.ReadBlockOf | whisper_to_textgrid.py:44-48 | A written block reads back as its interval and carries its own number. |
| TextGrid.BlocksFrom | whisper_to_textgrid.py:55-67 | From block k on, the joined text is block k's four lines followed by the later blocks. |
| TextGrid.ReadBlocks | whisper_to_textgrid.py:55-67 | The blocks from segment k on read back as the intervals from k on, numbered from k+1. |
| TextGrid.IntervalOnItsLines | whisper_to_textgrid.py:44-48 | With line-safe segments, no field of interval k contains a line break. |
| Text.Strip | whisper_to_textgrid.py:48 | `strip()` returns a trimmed string. That string is the slice of the input that starts after its leading whitespace, and only whitespace follows it. |
| Text.StripOfPadded | whisper_to_textgrid.py:48 | Any whitespace around a trimmed core is removed and the core is returned unchanged, including inner spaces and quotes. |
| Text.StripIdempotent | whisper_to_textgrid.py:48 | Stripping twice is stripping once. |
| Text.Join | whisper_to_textgrid.py:67 | Definition of `'\n'.join`; its meaning is stated by `Text.SplitJoin` and `Text.JoinAppend`. |
| Text.SplitJoin | whisper_to_textgrid.py:66-67 | Splitting on the separator recovers the pieces of `'\n'.join` when no piece contains a newline; this is the join's inverse, not a call in the scripts. |
| Text.JoinAppend | whisper_to_textgrid.py:66-67 | Joining a concatenation is joining each part with one separator between them. |
| Text.NatToString | whisper_to_textgrid.py:42 | `str(n)` is a non-empty string of decimal digits. |
| Text.ParseNatToString | whisper_to_textgrid.py:42 | `str(n)` reads back as `n`. |
| Text.NatToStringInjective | whisper_to_textgrid.py:42 | Different counts give different numerals. |
| Text.Contains | wer_calculator_directory.py:37 | Definition of `sub in s` as a left-to-right search, used at lines 37 and 53; its meaning is stated by `Text.ContainsIff`. |
| Text.StartsWith | wer_calculator_directory.py:53 | Definition of `s.startswith(p)`; its use in the hypothesis filter is stated by `WerCalculator.HypothesesForMembers`. |
| Text.ContainsIff | wer_calculator_directory.py:37 | `sub in s` holds exactly when `sub` occurs at some position of `s`. |
| Text.Words | wer_calculator_directory.py:49 | Definition of `str.split()` with no argument, used at lines 49 and 64; its meaning is stated by `Text.WordsShape` and `Text.WordCountIsRunCount`. |
| Text.WordCount | wer_calculator_directory.py:49 | Definition of `len(text.split())`, used at lines 49 and 64; its meaning is stated by `Text.WordCountIsRunCount`. |
| Text.WordsShape | wer_calculator_directory.py:49 | `split()` yields non-empty words without whitespace, and none exactly when the text is all whitespace. |
| Text.WordCountIsRunCount | wer_calculator_directory.py:64 | `len(text.split())` is the number of maximal non-whitespace runs, and it is 0 exactly for empty or all-whitespace text. |
| WerCalculator.Report | wer_calculator_directory.py:39-76 | Definition of the run's outcome, loop by loop; its meaning is stated by `WerCalculator.ReportOutcome`, `WerCalculator.ReportRows` and `WerCalculator.ReportFailure`. |
| WerCalculator.References | wer_calculator_directory.py:37 | Definition of the reference comprehension; its members are stated by `WerCalculator.ReferencesMembers`. |
| WerCalculator.HypothesesFor | wer_calculator_directory.py:53 | Definition of the hypothesis comprehension; its members are stated by `WerCalculator.HypothesesForMembers`. |
| WerCalculator.CalculateWer | wer_calculator_directory.py:37-76 | The reference filter and the nested loops produce exactly the report that `Report` specifies: the rows in order, or the first file that could not be read. |
| WerCalculator.ReportOutcome | wer_calculator_directory.py:39-76 | The run fails with the first unreadable file in read order. Otherwise every pair is readable and the rows are one per pair, in pair order. |
| WerCalculator.ReportOfOutcome | wer_calculator_directory.py:39-76 | The outer loop over any prefix of the references fails on the first unreadable file it reads, or gives one row per pair so far. |
| WerCalculator.HypothesisRowsOutcome | wer_calculator_directory.py:55-76 | The inner loop fails on its first unreadable hypothesis, or gives one row per hypothesis, in order. |
| WerCalculator.MakeRow | wer_calculator_directory.py:61-76 | Definition of one result row; its fields for every reported pair are stated by `WerCalculator.ReportRows`. |
| WerCalculator.ReportRows | wer_calculator_directory.py:46-76 | Row k holds pair k's reference and hypothesis names, and the rate `wer(normalize(ref), normalize(hyp))` unchanged. It also holds the word counts of the two normalized texts. All rows of the same reference carry the same reference word count. |
| WerCalculator.ReportFailure | wer_calculator_directory.py:42-58 | A failed run names a file that the run had to read and that cannot be read. |
| WerCalculator.FirstUnreadable | wer_calculator_directory.py:42-58 | The name reported is unreadable, and every name read before it was readable. When no name is reported, all names are readable. |
| WerCalculator.HypothesisRowsStep | wer_calculator_directory.py:55-76 | A readable hypothesis appends exactly its row. |
| WerCalculator.HypothesisRowsStop | wer_calculator_directory.py:57-58 | An unreadable hypothesis ends the inner loop with its name. |
| WerCalculator.ReportOfStep | wer_calculator_directory.py:39-76 | A finished reference appends its rows to those before it. |
| WerCalculator.ReportOfStop | wer_calculator_directory.py:39-76 | A failure on one reference ends the whole run with that failure. |
| WerCalculator.PairsAreMatchingProduct | wer_calculator_directory.py:37-55 | The loops visit exactly the (reference, hypothesis) pairs of the listing's product that both filters accept. They are ordered by reference listing order, then hypothesis listing order, and appear once per match. |
| WerCalculator.PairsOfMatching | wer_calculator_directory.py:37-55 | For any prefix of the listing, the loops' pairs are the matching pairs of the product. |
| WerCalculator.MatchingBlock | wer_calculator_directory.py:53 | A reference's row of the product keeps exactly its hypotheses, in listing order. A non-reference keeps nothing. |
| WerCalculator.PairsMembers | wer_calculator_directory.py:37-53 | A pair is reported exactly when its reference is a listed name without the marker and its hypothesis is a listed name that starts with the reference's prefix and has the marker. A marked name that matches no reference appears in no row. |
| WerCalculator.PairsOfMembers | wer_calculator_directory.py:39-55 | A pair is visited for some references exactly when its reference is one of them and its hypothesis is among that reference's hypotheses. |
| WerCalculator.NoReferenceAsHypothesis | wer_calculator_directory.py:37-53 | No reported hypothesis is a reference, and no name is paired with itself. |
| WerCalculator.HypothesisIsNoReference | wer_calculator_directory.py:37-53 | A name the hypothesis filter accepts is never a reference. |
| WerCalculator.ReferencesMembers | wer_calculator_directory.py:37 | A name is a reference exactly when it is listed and does not contain `_whisper`. |
| WerCalculator.HypothesesForMembers | wer_calculator_directory.py:53 | A name is a hypothesis for a prefix exactly when it is listed, starts with the prefix and contains `_whisper`. |
| WerCalculator.FilterMembers | wer_calculator_directory.py:37 | A comprehension with a condition keeps exactly the elements that satisfy it. |
| WerCalculator.FilterAppend | wer_calculator_directory.py:53 | Filtering a concatenation filters each part, keeping the order. |
| WerCalculator.Prefix | wer_calculator_directory.py:52 | `name[:-4]` is a prefix of the name, four characters shorter, and empty for names of four characters or fewer. |
| WerCalculator.PrefixDropsExtension | wer_calculator_directory.py:52 | For `<stem>.txt` the prefix is the stem. |
| WerCalculator.ShortReferenceMatchesAll | wer_calculator_directory.py:52-53 | A reference of four characters or fewer matches every marked name. |
| WerCalculator.MarkedNameMatchesStem | wer_calculator_directory.py:52-53 | `<stem><tail>_whisper.txt` is a hypothesis of `<stem>.txt` for every tail. With an empty tail this is the transcriber's own output name. With a non-empty tail it is the overlap case: `a2_whisper.txt` also attaches to `a.txt`. |

## Left out

- `whisper_to_txt_directory.py` is not part of this model: it walks directories, runs the transcriber and writes files. The only thing it contributes here is its output naming, `<stem>_whisper.txt`, which `WerCalculator.MarkedNameMatchesStem` covers.
- Loading the Whisper model, transcription and `ffmpeg.probe` (whisper_to_textgrid.py:26, 51-52) are external. The model takes their results as inputs: the segments and the duration string.
- `werpy.normalize` and `werpy.wer` (wer_calculator_directory.py:46, 61, 67) are parameters. Edit distance is not reimplemented.
- File I/O is not modelled:
  - `os.listdir`, opening and reading files, the pandas DataFrame and the CSV write (wer_calculator_directory.py:34, 42-43, 57-58, 79-83);
  - writing the TextGrid (whisper_to_textgrid.py:70-71).

  The listing is a sequence and the contents are a map. Any reason `open` or `read` raises is a name missing from the map: a missing file, a decode error, or a directory in the listing. The TextGrid text returned is the string passed to `f.write`. Writing in text mode turns each `\n` into the platform's line separator (CRLF on Windows), which is not modelled.
- The final message (wer_calculator_directory.py:85) is console output and is left out.
- Float formatting of timestamps is left out: times are opaque strings, compared only for equality.
- Neither contiguity between intervals nor a first `xmin` of 0 is stated. The code guarantees neither: it writes the transcriber's times as given, and an empty list yields the header with `intervals: size = 0`.
- Quotes in segment text are not escaped, as in the code. Such a file is not valid for Praat.
- TextGrid.ReadWritten, TextGrid.ReadBackFields, TextGrid.ReadBlocks, TextGrid.ReadBlockOf, TextGrid.ReadPreambleOf and TextGrid.ReadTierFieldsOf: the read-back is stated only for line-safe input, meaning no line break in any time, in the duration or in a stripped text (`LineSafe`, or the same condition on the fields one member reads). A line break inside a field splits it across lines, and then the line-based reader cannot recover it.
- TextGrid.ReadTextGrid is a line-based reader for exactly the layout this writer emits, with one tier. It is not Praat's general parser.
- TextGrid.WriteTextGrid: its `ensures` ties the output to `TextGridText`. The read-back properties are stated about `TextGridText` in `TextGrid.ReadWritten` and `TextGrid.ReadBackFields`, not repeated on the method.
- A hypothesis that matches several references (overlapping prefixes, see `WerCalculator.MarkedNameMatchesStem`) gets one row per match, as in the code. Whether that was intended is not decided here.
