/**
 * The pieces of Python's `str` that the two scripts rely on: `strip()`,
 * `split()` with no argument (both over the `str.isspace` whitespace set),
 * `in` on strings, `startswith`, `'\n'.join` and `str` of an integer.
 * Splitting on a separator is here only as the inverse of joining.
 */
module Text {
  import opened Wrappers

  // ---------------------------------------------------------------------
  // Whitespace
  // ---------------------------------------------------------------------

  /** The characters for which Python's `str.isspace()` holds; `strip()` and `split()` use the same set. */
  predicate IsSpace(c: char) {
    var n := c as int;
    (0x09 <= n <= 0x0D) || (0x1C <= n <= 0x20) || n == 0x85 || n == 0xA0 || n == 0x1680
    || (0x2000 <= n <= 0x200A) || n == 0x2028 || n == 0x2029 || n == 0x202F || n == 0x205F
    || n == 0x3000
  }

  predicate AllSpace(s: string) {
    forall i :: 0 <= i < |s| ==> IsSpace(s[i])
  }

  /** A string with no whitespace at either end (the empty string included). */
  predicate Trimmed(s: string) {
    s == [] || (!IsSpace(s[0]) && !IsSpace(s[|s| - 1]))
  }

  /** Length of the run of whitespace that starts `s`. */
  function LeadingSpace(s: string): (n: nat)
    ensures n <= |s|
    ensures AllSpace(s[..n])
    ensures n < |s| ==> !IsSpace(s[n])
  {
    if s == [] || !IsSpace(s[0]) then 0
    else
      var m := LeadingSpace(s[1..]);
      assert s[..m + 1] == [s[0]] + s[1..][..m];
      1 + m
  }

  /** Length of the run of whitespace that ends `s`. */
  function TrailingSpace(s: string): (n: nat)
    ensures n <= |s|
    ensures AllSpace(s[|s| - n..])
    ensures n < |s| ==> !IsSpace(s[|s| - 1 - n])
  {
    if s == [] || !IsSpace(s[|s| - 1]) then 0
    else
      var init := s[..|s| - 1];
      var m := TrailingSpace(init);
      assert s[|s| - (m + 1)..] == init[|init| - m..] + [s[|s| - 1]];
      1 + m
  }

  /**
   * Python's `s.strip()`: `s` with the whitespace at both ends removed.
   * The result is the slice of `s` that starts after its leading whitespace,
   * and everything after that slice is whitespace too.
   */
  function Strip(s: string): (r: string)
    ensures Trimmed(r)
    ensures LeadingSpace(s) + |r| <= |s|
    ensures s[LeadingSpace(s)..LeadingSpace(s) + |r|] == r
    ensures AllSpace(s[LeadingSpace(s) + |r|..])
  {
    var l := LeadingSpace(s);
    if l == |s| then []
    else
      var t := TrailingSpace(s);
      assert s[l + (|s| - t - l)..] == s[|s| - t..];
      s[l..|s| - t]
  }

  /** Strip is characterised by its result: whatever whitespace pads a trimmed core, strip returns the core. */
  lemma {:induction false} LeadingSpaceOf(pre: string, rest: string)
    requires AllSpace(pre) && (rest == [] || !IsSpace(rest[0]))
    ensures LeadingSpace(pre + rest) == |pre|
    decreases |pre|
  {
    if pre != [] {
      assert (pre + rest)[1..] == pre[1..] + rest;
      assert AllSpace(pre[1..]) by {
        assert forall k :: 0 <= k < |pre[1..]| ==> pre[1..][k] == pre[k + 1];
      }
      LeadingSpaceOf(pre[1..], rest);
    } else {
      assert pre + rest == rest;
    }
  }

  /** Trailing whitespace begins where a non-space ends and the padding begins. */
  lemma {:induction false} TrailingSpaceOf(rest: string, post: string)
    requires AllSpace(post) && (rest == [] || !IsSpace(rest[|rest| - 1]))
    ensures TrailingSpace(rest + post) == |post|
    decreases |post|
  {
    var s := rest + post;
    if post != [] {
      var init := post[..|post| - 1];
      assert s[..|s| - 1] == rest + init;
      assert AllSpace(init) by {
        assert forall k :: 0 <= k < |init| ==> init[k] == post[k];
      }
      assert s[|s| - 1] == post[|post| - 1];
      TrailingSpaceOf(rest, init);
    } else {
      assert s == rest;
    }
  }

  /** Strip is characterised by its result: whatever whitespace pads a trimmed core, strip returns the core. */
  lemma {:induction false} StripOfPadded(pre: string, core: string, post: string)
    requires AllSpace(pre) && AllSpace(post) && Trimmed(core)
    ensures Strip(pre + core + post) == core
  {
    var s := pre + core + post;
    if core == [] {
      assert s == pre + post;
      assert AllSpace(s) by {
        forall i | 0 <= i < |s| ensures IsSpace(s[i]) {
          if i < |pre| { assert s[i] == pre[i]; } else { assert s[i] == post[i - |pre|]; }
        }
      }
    } else {
      assert s == pre + (core + post);
      LeadingSpaceOf(pre, core + post);
      assert s == (pre + core) + post;
      TrailingSpaceOf(pre + core, post);
      assert s[|pre|..|s| - |post|] == core;
    }
  }

  lemma StripIdempotent(s: string)
    ensures Strip(Strip(s)) == Strip(s)
  {
    StripOfPadded([], Strip(s), []);
    assert [] + Strip(s) + [] == Strip(s);
  }

  // ---------------------------------------------------------------------
  // Substrings and prefixes
  // ---------------------------------------------------------------------

  /** Python's `s.startswith(p)`. */
  predicate StartsWith(s: string, p: string) {
    |p| <= |s| && s[..|p|] == p
  }

  /** Python's `s.endswith(p)`. */
  predicate EndsWith(s: string, p: string) {
    |p| <= |s| && s[|s| - |p|..] == p
  }

  predicate OccursAt(s: string, sub: string, i: int) {
    0 <= i && i + |sub| <= |s| && s[i..i + |sub|] == sub
  }

  /** Python's `sub in s`, searching from the left. */
  function Contains(s: string, sub: string): bool
    decreases |s|
  {
    if StartsWith(s, sub) then true
    else if s == [] then false
    else Contains(s[1..], sub)
  }

  /** The search agrees with the definition of a substring: some position holds `sub`. */
  lemma {:induction false} ContainsIff(s: string, sub: string)
    ensures Contains(s, sub) <==> exists i :: OccursAt(s, sub, i)
    decreases |s|
  {
    if StartsWith(s, sub) {
      assert OccursAt(s, sub, 0);
    } else if s == [] {
    } else {
      ContainsIff(s[1..], sub);
      if exists i :: OccursAt(s[1..], sub, i) {
        var i :| OccursAt(s[1..], sub, i);
        assert s[i + 1..i + 1 + |sub|] == s[1..][i..i + |sub|];
        assert OccursAt(s, sub, i + 1);
      }
      if exists i :: OccursAt(s, sub, i) {
        var i :| OccursAt(s, sub, i);
        if i != 0 {
          assert s[1..][i - 1..i - 1 + |sub|] == s[i..i + |sub|];
          assert OccursAt(s[1..], sub, i - 1);
        }
      }
    }
  }

  // ---------------------------------------------------------------------
  // Words: `len(text.split())`
  // ---------------------------------------------------------------------

  /** Length of the run of non-whitespace characters that starts `s`. */
  function RunLength(s: string): (n: nat)
    ensures n <= |s|
    ensures forall k :: 0 <= k < n ==> !IsSpace(s[k])
    ensures n < |s| ==> IsSpace(s[n])
  {
    if s == [] || IsSpace(s[0]) then 0 else 1 + RunLength(s[1..])
  }

  /**
   * Python's `s.split()` with no separator: the maximal runs of
   * non-whitespace characters, in order; no empty strings.
   */
  function Words(s: string): seq<string>
    decreases |s|
  {
    if s == [] then []
    else if IsSpace(s[0]) then Words(s[1..])
    else
      var n := RunLength(s);
      [s[..n]] + Words(s[n..])
  }

  /** The words are non-empty runs without whitespace, and there are none exactly when `s` is all whitespace. */
  lemma {:induction false} WordsShape(s: string)
    ensures forall w :: w in Words(s) ==> w != [] && forall k :: 0 <= k < |w| ==> !IsSpace(w[k])
    ensures Words(s) == [] <==> AllSpace(s)
    decreases |s|
  {
    if s == [] {
    } else if IsSpace(s[0]) {
      WordsShape(s[1..]);
      assert AllSpace(s[1..]) ==> AllSpace(s) by {
        if AllSpace(s[1..]) {
          forall i | 0 <= i < |s| ensures IsSpace(s[i]) {
            if i > 0 { assert s[i] == s[1..][i - 1]; }
          }
        }
      }
      assert AllSpace(s) ==> AllSpace(s[1..]) by {
        if AllSpace(s) {
          forall i | 0 <= i < |s| - 1 ensures IsSpace(s[1..][i]) {
            assert s[1..][i] == s[i + 1];
          }
        }
      }
    } else {
      var n := RunLength(s);
      WordsShape(s[n..]);
      assert Words(s) == [s[..n]] + Words(s[n..]);
    }
  }

  /** The word count the report uses: `len(text.split())`. */
  function WordCount(s: string): nat {
    |Words(s)|
  }

  /** Positions where a run of non-whitespace ends, counted one character at a time. */
  function RunEnds(s: string): nat
    decreases |s|
  {
    if s == [] then 0
    else (if !IsSpace(s[0]) && (|s| == 1 || IsSpace(s[1])) then 1 else 0) + RunEnds(s[1..])
  }

  /** A run of n non-whitespace characters followed by whitespace or the end contributes one run end. */
  lemma {:induction false} RunEndsOfRun(s: string, n: nat)
    requires 1 <= n <= |s|
    requires forall k :: 0 <= k < n ==> !IsSpace(s[k])
    requires n < |s| ==> IsSpace(s[n])
    ensures RunEnds(s) == 1 + RunEnds(s[n..])
    decreases n
  {
    if n > 1 {
      RunEndsOfRun(s[1..], n - 1);
      assert s[1..][n - 1..] == s[n..];
    }
  }

  /** The word count equals the number of maximal non-whitespace runs, and so is 0 exactly for all-whitespace text. */
  lemma {:induction false} WordCountIsRunCount(s: string)
    ensures WordCount(s) == RunEnds(s)
    ensures WordCount(s) == 0 <==> AllSpace(s)
    decreases |s|
  {
    WordsShape(s);
    if s == [] {
    } else if IsSpace(s[0]) {
      WordCountIsRunCount(s[1..]);
    } else {
      var n := RunLength(s);
      RunEndsOfRun(s, n);
      WordCountIsRunCount(s[n..]);
    }
  }

  // ---------------------------------------------------------------------
  // Lines: `sep.join(xs)` and `s.split(sep)`
  // ---------------------------------------------------------------------

  /** Python's `sep.join(xs)` for a one-character separator. */
  function Join(xs: seq<string>, sep: char): string
    decreases |xs|
  {
    if |xs| == 0 then ""
    else if |xs| == 1 then xs[0]
    else xs[0] + [sep] + Join(xs[1..], sep)
  }

  /** Position of the first `c` in `s`. */
  function FirstIndex(s: string, c: char): (i: nat)
    requires c in s
    ensures i < |s| && s[i] == c && c !in s[..i]
  {
    if s[0] == c then 0
    else
      var j := FirstIndex(s[1..], c);
      assert s[..j + 1] == [s[0]] + s[1..][..j];
      1 + j
  }

  /** The pieces between separators, always at least one: the inverse of `Join` (`SplitJoin`). */
  function Split(s: string, sep: char): (parts: seq<string>)
    ensures |parts| >= 1
    decreases |s|
  {
    if sep in s then
      var i := FirstIndex(s, sep);
      [s[..i]] + Split(s[i + 1..], sep)
    else [s]
  }

  lemma {:induction false} FirstIndexAfterLine(line: string, sep: char, rest: string)
    requires sep !in line
    ensures FirstIndex(line + [sep] + rest, sep) == |line|
  {
    var s := line + [sep] + rest;
    assert forall k :: 0 <= k < |line| ==> s[k] == line[k];
    assert s[|line|] == sep;
  }

  lemma {:induction false} JoinAppend(a: seq<string>, b: seq<string>, sep: char)
    requires |a| >= 1 && |b| >= 1
    ensures Join(a + b, sep) == Join(a, sep) + [sep] + Join(b, sep)
    decreases |a|
  {
    if |a| == 1 {
      assert (a + b)[1..] == b;
    } else {
      JoinAppend(a[1..], b, sep);
      assert (a + b)[1..] == a[1..] + b;
    }
  }

  /** Splitting undoes joining when no piece contains the separator. */
  lemma {:induction false} SplitJoin(xs: seq<string>, sep: char)
    requires |xs| >= 1
    requires forall k :: 0 <= k < |xs| ==> sep !in xs[k]
    ensures Split(Join(xs, sep), sep) == xs
    decreases |xs|
  {
    if |xs| > 1 {
      var s := Join(xs, sep);
      var rest := Join(xs[1..], sep);
      assert s == xs[0] + [sep] + rest;
      FirstIndexAfterLine(xs[0], sep, rest);
      assert s[..|xs[0]|] == xs[0];
      assert s[|xs[0]| + 1..] == rest;
      SplitJoin(xs[1..], sep);
    }
  }

  // ---------------------------------------------------------------------
  // Decimal numerals: `str(n)` and reading one back
  // ---------------------------------------------------------------------

  predicate IsDigit(c: char) {
    '0' <= c <= '9'
  }

  function DigitChar(d: nat): (c: char)
    requires d < 10
    ensures IsDigit(c)
  {
    ('0' as int + d) as char
  }

  /** Python's `str(n)` for a non-negative integer. */
  function NatToString(n: nat): (s: string)
    ensures s != [] && forall k :: 0 <= k < |s| ==> IsDigit(s[k])
  {
    if n < 10 then [DigitChar(n)] else NatToString(n / 10) + [DigitChar(n % 10)]
  }

  function DigitsValue(s: string): nat
    requires forall k :: 0 <= k < |s| ==> IsDigit(s[k])
  {
    if s == [] then 0
    else
      var last := s[|s| - 1];
      assert IsDigit(last);
      DigitsValue(s[..|s| - 1]) * 10 + (last as int - '0' as int)
  }

  /** Reads a decimal numeral; None unless the string is one or more digits. */
  function ParseNat(s: string): Option<nat> {
    if s != [] && forall k :: 0 <= k < |s| ==> IsDigit(s[k]) then Some(DigitsValue(s)) else None
  }

  lemma {:induction false} ParseNatToString(n: nat)
    ensures ParseNat(NatToString(n)) == Some(n)
  {
    if n >= 10 {
      ParseNatToString(n / 10);
      var s := NatToString(n);
      assert s[..|s| - 1] == NatToString(n / 10);
      assert DigitsValue(s) == DigitsValue(NatToString(n / 10)) * 10 + n % 10;
    }
  }

  /** `str` is injective on naturals, so a numeral names one count. */
  lemma NatToStringInjective(m: nat, n: nat)
    requires NatToString(m) == NatToString(n)
    ensures m == n
  {
    ParseNatToString(m);
    ParseNatToString(n);
  }
}
