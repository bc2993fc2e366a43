/**
 * The pieces of Rust's standard library that the bot's logic leans on, stated on
 * Dafny strings (`seq<char>`) and unbounded integers:
 *  - decimal rendering of integers (`to_string`, `{}` in `format!`) and
 *    zero padding (`{:04}`, `{:02}`);
 *  - `u64::from_str` (what `str::parse::<u64>` calls);
 *  - `str::replace`, `[String]::join`, `str::to_ascii_uppercase`;
 *  - integer `/` and `%`, which truncate toward zero in Rust.
 */
module Text {
  import opened Wrappers

  const U64_LIMIT: int := 0x1_0000_0000_0000_0000

  /** Rust's `u64`. */
  type u64 = x: int | 0 <= x < U64_LIMIT

  // ---------------------------------------------------------------------------
  // Truncating integer division (Rust's `/` and `%` on signed integers)
  // ---------------------------------------------------------------------------

  function TruncDiv(a: int, b: int): int
    requires b > 0
  {
    if a >= 0 then a / b else -((-a) / b)
  }

  function TruncRem(a: int, b: int): (r: int)
    requires b > 0
    ensures TruncDiv(a, b) * b + r == a
    ensures a >= 0 ==> 0 <= r < b
    ensures a < 0 ==> -b < r <= 0
  {
    if a >= 0 then a % b else -((-a) % b)
  }

  // ---------------------------------------------------------------------------
  // Decimal digits and rendering
  // ---------------------------------------------------------------------------

  predicate IsDigit(c: char) {
    '0' <= c <= '9'
  }

  function DigitChar(d: nat): (c: char)
    requires d < 10
    ensures IsDigit(c)
  {
    (('0' as int) + d) as char
  }

  function DigitValue(c: char): (d: nat)
    requires IsDigit(c)
    ensures d < 10 && DigitChar(d) == c
  {
    (c as int) - ('0' as int)
  }

  /** `n.to_string()` for a non-negative integer: no sign, no leading zeros. */
  function ToDecimal(n: nat): (s: string)
    ensures 1 <= |s| && (|s| == 1 <==> n < 10)
    ensures forall i :: 0 <= i < |s| ==> IsDigit(s[i])
    ensures s[0] == '0' <==> n == 0
    decreases n
  {
    if n < 10 then [DigitChar(n)] else ToDecimal(n / 10) + [DigitChar(n % 10)]
  }

  /** `i.to_string()` for a signed integer. */
  function IntToString(i: int): string {
    if i < 0 then "-" + ToDecimal(-i) else ToDecimal(i)
  }

  function Zeros(n: nat): (s: string)
    ensures |s| == n && forall i :: 0 <= i < n ==> s[i] == '0'
  {
    seq(n, _ => '0')
  }

  /** Left-pads a rendered number with '0' up to `width` characters. */
  function ZeroPad(s: string, width: nat): string {
    if |s| < width then Zeros(width - |s|) + s else s
  }

  /** `format!("{:0w$}", n)`: the sign, when there is one, counts toward the width. */
  function PadInt(n: int, width: nat): (s: string)
    ensures |s| >= width
  {
    if n < 0 then
      var body := ZeroPad(ToDecimal(-n), if width == 0 then 0 else width - 1);
      "-" + body
    else
      ZeroPad(ToDecimal(n), width)
  }

  /** The decimal rendering is injective: two numbers print alike only when equal. */
  lemma {:induction false} ToDecimalInjective(a: nat, b: nat)
    requires ToDecimal(a) == ToDecimal(b)
    ensures a == b
    decreases a
  {
    var sa, sb := ToDecimal(a), ToDecimal(b);
    if a >= 10 {
      assert b >= 10;
      assert sa == ToDecimal(a / 10) + [DigitChar(a % 10)];
      assert sb == ToDecimal(b / 10) + [DigitChar(b % 10)];
      assert ToDecimal(a / 10) == sa[..|sa| - 1] == sb[..|sb| - 1] == ToDecimal(b / 10);
      assert DigitValue(sa[|sa| - 1]) == a % 10;
      assert DigitValue(sb[|sb| - 1]) == b % 10;
      ToDecimalInjective(a / 10, b / 10);
    } else {
      assert DigitValue(sa[0]) == a;
      assert DigitValue(sb[0]) == b;
    }
  }

  /** Zero padding a number gives all zeros exactly when the number is 0. */
  lemma PadIntAllZeros(n: int, width: nat)
    requires width >= 1
    ensures PadInt(n, width) == Zeros(width) <==> n == 0
  {
    var s := PadInt(n, width);
    if n < 0 {
      assert s[0] == '-';
    } else {
      var d := ToDecimal(n);
      if |d| < width {
        assert s == Zeros(width - |d|) + d;
        assert s[width - |d|] == d[0];
      } else {
        assert s == d;
        assert s[0] == d[0];
      }
    }
  }

  // ---------------------------------------------------------------------------
  // `u64::from_str`
  // ---------------------------------------------------------------------------

  /** The kinds of `core::num::ParseIntError` that a `u64` parse can raise. */
  datatype ParseIntError = Empty | InvalidDigit | PosOverflow

  function ParseIntErrorText(e: ParseIntError): string {
    match e
    case Empty => "cannot parse integer from empty string"
    case InvalidDigit => "invalid digit found in string"
    case PosOverflow => "number too large to fit in target type"
  }

  /**
   * `s.parse::<u64>()`: the empty string is `Empty`; one leading '+' is skipped
   * (and if nothing follows it the digits are `Empty`); then every character must be
   * an ASCII digit, accumulated left to right with checked multiply and add.
   */
  function ParseU64(s: string): (r: Result<u64, ParseIntError>)
    ensures s == [] || s == "+" ==> r == Err(Empty)
    ensures r.Ok? ==> |s| >= 1 && var digits := if s[0] == '+' then s[1..] else s;
      |digits| >= 1 && forall i :: 0 <= i < |digits| ==> IsDigit(digits[i])
  {
    if |s| == 0 then Err(Empty)
    else
      var digits := if s[0] == '+' then s[1..] else s;
      if |digits| == 0 then Err(Empty) else Accumulate(0, digits)
  }

  /** The digit loop of `from_str_radix`: the first failing step decides the error. */
  function Accumulate(acc: u64, digits: string): (r: Result<u64, ParseIntError>)
    ensures r.Ok? ==> acc <= r.value && forall i :: 0 <= i < |digits| ==> IsDigit(digits[i])
    decreases |digits|
  {
    if |digits| == 0 then Ok(acc)
    else if !IsDigit(digits[0]) then Err(InvalidDigit)
    else if acc * 10 >= U64_LIMIT then Err(PosOverflow)
    else if acc * 10 + DigitValue(digits[0]) >= U64_LIMIT then Err(PosOverflow)
    else Accumulate(acc * 10 + DigitValue(digits[0]), digits[1..])
  }

  lemma {:induction false} AccumulateAppend(acc: u64, s: string, t: string)
    ensures Accumulate(acc, s + t) ==
            match Accumulate(acc, s)
            case Ok(v) => Accumulate(v, t)
            case Err(e) => Err(e)
    decreases |s|
  {
    if |s| == 0 {
      assert s + t == t;
    } else {
      assert (s + t)[0] == s[0];
      assert (s + t)[1..] == s[1..] + t;
      if IsDigit(s[0]) && acc * 10 + DigitValue(s[0]) < U64_LIMIT {
        AccumulateAppend(acc * 10 + DigitValue(s[0]), s[1..], t);
      }
    }
  }

  lemma {:induction false} AccumulateDecimal(n: u64)
    ensures Accumulate(0, ToDecimal(n)) == Ok(n)
    decreases n
  {
    if n >= 10 {
      var d := DigitChar(n % 10);
      AccumulateDecimal(n / 10);
      AccumulateAppend(0, ToDecimal(n / 10), [d]);
      assert [d][1..] == [];
    }
  }

  /** Leading zeros add nothing to the accumulated value. */
  lemma {:induction false} ZerosAccumulate(k: nat)
    ensures Accumulate(0, Zeros(k)) == Ok(0)
  {
    if k > 0 {
      assert Zeros(k)[1..] == Zeros(k - 1);
      ZerosAccumulate(k - 1);
    }
  }

  /** A zero-padded `u64` still reads back as that number. */
  lemma PadReadsBack(n: u64, width: nat)
    ensures ParseU64(PadInt(n, width)) == Ok(n)
  {
    var d := ToDecimal(n);
    AccumulateDecimal(n);
    if |d| < width {
      ZerosAccumulate(width - |d|);
      AccumulateAppend(0, Zeros(width - |d|), d);
      assert PadInt(n, width)[0] == '0';
    } else {
      assert PadInt(n, width) == d;
      assert d[0] != '+';
    }
  }

  /** Rendering a `u64` in decimal and parsing it back gives the same number. */
  lemma ParseToDecimal(n: u64)
    ensures ParseU64(ToDecimal(n)) == Ok(n)
  {
    AccumulateDecimal(n);
  }

  // ---------------------------------------------------------------------------
  // Substrings and `str::replace`
  // ---------------------------------------------------------------------------

  /** `pat` occurs in `s` starting at index `i`. */
  ghost predicate OccursAt(s: string, pat: string, i: int) {
    0 <= i && i + |pat| <= |s| && s[i..i + |pat|] == pat
  }

  /** `s.contains(pat)` */
  ghost predicate Contains(s: string, pat: string) {
    exists i :: OccursAt(s, pat, i)
  }

  /** No character of `a` occurs in `b`. */
  ghost predicate NoShared(a: string, b: string) {
    forall i :: 0 <= i < |a| ==> a[i] !in b
  }

  /**
   * `s.replace(pat, rep)`: scans left to right and replaces every
   * non-overlapping occurrence of the (non-empty) pattern.
   */
  function Replace(s: string, pat: string, rep: string): (r: string)
    requires pat != []
    ensures rep == pat ==> r == s
    ensures |rep| == |pat| ==> |r| == |s|
    decreases |s|
  {
    if |s| < |pat| then s
    else if s[..|pat|] == pat then
      var r := rep + Replace(s[|pat|..], pat, rep);
      assert rep == pat ==> r == s[..|pat|] + s[|pat|..];
      r
    else
      var r := [s[0]] + Replace(s[1..], pat, rep);
      assert rep == pat ==> r == [s[0]] + s[1..];
      r
  }

  lemma OccursInSuffix(s: string, k: nat, y: string, i: int)
    requires k <= |s|
    ensures OccursAt(s[k..], y, i) ==> OccursAt(s, y, i + k)
  {
    if OccursAt(s[k..], y, i) {
      assert s[k..][i..i + |y|] == s[i + k..i + k + |y|];
    }
  }

  lemma SuffixKeepsAbsence(s: string, k: nat, y: string)
    requires k <= |s| && !Contains(s, y)
    ensures !Contains(s[k..], y)
  {
    forall i ensures !OccursAt(s[k..], y, i) {
      OccursInSuffix(s, k, y, i);
    }
  }

  lemma OccursAfterPrefix(a: string, b: string, y: string, i: int)
    requires i >= |a|
    ensures OccursAt(a + b, y, i) <==> OccursAt(b, y, i - |a|)
  {
    if i + |y| <= |a + b| {
      assert (a + b)[i..i + |y|] == b[i - |a|..i - |a| + |y|];
    }
  }

  lemma OccursInsidePrefix(a: string, b: string, y: string, i: int)
    requires 0 <= i < |a| && y != []
    ensures OccursAt(a + b, y, i) ==> a[i] in y
  {
    if OccursAt(a + b, y, i) {
      assert (a + b)[i..i + |y|][0] == a[i];
    }
  }

  /** With no occurrence of the pattern, `replace` changes nothing. */
  lemma {:induction false} ReplaceWithoutMatch(s: string, pat: string, rep: string)
    requires pat != [] && !Contains(s, pat)
    ensures Replace(s, pat, rep) == s
    decreases |s|
  {
    if |s| >= |pat| {
      assert !OccursAt(s, pat, 0);
      SuffixKeepsAbsence(s, 1, pat);
      ReplaceWithoutMatch(s[1..], pat, rep);
      assert [s[0]] + s[1..] == s;
    }
  }

  /** Up to the first replacement character, the output of `replace` is its input. */
  lemma {:induction false} ReplaceKeepsPrefix(t: string, pat: string, rep: string, k: nat)
    requires pat != [] && rep != []
    requires k <= |Replace(t, pat, rep)|
    requires forall i :: 0 <= i < k ==> Replace(t, pat, rep)[i] !in rep
    ensures k <= |t| && Replace(t, pat, rep)[..k] == t[..k]
    decreases |t|
  {
    var r := Replace(t, pat, rep);
    if |t| < |pat| {
    } else if t[..|pat|] == pat {
      assert r[0] == rep[0] && r[0] in rep;
    } else if k > 0 {
      var r' := Replace(t[1..], pat, rep);
      assert r == [t[0]] + r';
      forall i | 0 <= i < k - 1 ensures r'[i] !in rep {
        assert r'[i] == r[i + 1];
      }
      ReplaceKeepsPrefix(t[1..], pat, rep, k - 1);
      assert r[..k] == [t[0]] + r'[..k - 1];
      assert t[..k] == [t[0]] + t[1..][..k - 1];
    }
  }

  lemma FrontOccurrenceIsOriginal(s: string, pat: string, rep: string, y: string)
    requires pat != [] && rep != [] && NoShared(rep, y)
    ensures OccursAt(Replace(s, pat, rep), y, 0) ==> OccursAt(s, y, 0)
  {
    var r := Replace(s, pat, rep);
    if OccursAt(r, y, 0) {
      forall i | 0 <= i < |y| ensures r[i] !in rep {
        assert r[i] == y[i];
      }
      ReplaceKeepsPrefix(s, pat, rep, |y|);
    }
  }

  /**
   * `replace` leaves no occurrence of `y` behind when the replacement shares no
   * character with `y`: occurrences of the pattern itself are all replaced, and
   * no new occurrence of anything is formed across a replacement.
   */
  lemma {:induction false} ReplaceLeavesNoOccurrence(s: string, pat: string, rep: string, y: string)
    requires pat != [] && rep != [] && y != []
    requires NoShared(rep, y)
    requires y == pat || !Contains(s, y)
    ensures !Contains(Replace(s, pat, rep), y)
    decreases |s|
  {
    var r := Replace(s, pat, rep);
    if |s| < |pat| {
      forall i ensures !OccursAt(r, y, i) {
        assert r == s;
      }
    } else if s[..|pat|] == pat {
      var rest := s[|pat|..];
      if y != pat {
        SuffixKeepsAbsence(s, |pat|, y);
      }
      ReplaceLeavesNoOccurrence(rest, pat, rep, y);
      var r' := Replace(rest, pat, rep);
      assert r == rep + r';
      forall i ensures !OccursAt(r, y, i) {
        if i >= |rep| {
          OccursAfterPrefix(rep, r', y, i);
        } else if i >= 0 {
          OccursInsidePrefix(rep, r', y, i);
        }
      }
    } else {
      if y != pat {
        SuffixKeepsAbsence(s, 1, y);
      }
      ReplaceLeavesNoOccurrence(s[1..], pat, rep, y);
      var r' := Replace(s[1..], pat, rep);
      assert r == [s[0]] + r';
      forall i ensures !OccursAt(r, y, i) {
        if i >= 1 {
          OccursAfterPrefix([s[0]], r', y, i);
        } else if i == 0 {
          FrontOccurrenceIsOriginal(s, pat, rep, y);
        }
      }
    }
  }

  /** Inside a digit string, no character of the text that follows it is the separator. */
  lemma NoSeparatorAmongDigits(x: string, c: char, y: string, k: int)
    requires forall i :: 0 <= i < |x| ==> IsDigit(x[i])
    requires !IsDigit(c)
    ensures 0 <= k < |x| ==> (x + [c] + y)[k] != c
  {
    if 0 <= k < |x| {
      assert (x + [c] + y)[k] == x[k];
    }
  }

  /** Two digit strings each followed by the same non-digit split back there. */
  lemma SplitAfterDigits(x1: string, y1: string, x2: string, y2: string, c: char)
    requires forall i :: 0 <= i < |x1| ==> IsDigit(x1[i])
    requires forall i :: 0 <= i < |x2| ==> IsDigit(x2[i])
    requires !IsDigit(c)
    requires x1 + [c] + y1 == x2 + [c] + y2
    ensures x1 == x2 && y1 == y2
  {
    var t := x1 + [c] + y1;
    assert t[|x1|] == c;
    assert t[|x2|] == c;
    NoSeparatorAmongDigits(x2, c, y2, |x1|);
    NoSeparatorAmongDigits(x1, c, y1, |x2|);
    assert x1 == t[..|x1|] == x2;
    assert y1 == t[|x1| + 1..] == y2;
  }

  // ---------------------------------------------------------------------------
  // `join`, `to_ascii_uppercase`
  // ---------------------------------------------------------------------------

  /** `xs.join(sep)` */
  function Join(xs: seq<string>, sep: string): string
    decreases |xs|
  {
    if |xs| == 0 then ""
    else if |xs| == 1 then xs[0]
    else xs[0] + sep + Join(xs[1..], sep)
  }

  /** Every element of the list appears in the joined text. */
  lemma {:induction false} JoinContains(xs: seq<string>, sep: string, i: nat)
    requires i < |xs|
    ensures Contains(Join(xs, sep), xs[i])
    decreases i
  {
    var j := Join(xs, sep);
    if i == 0 {
      if |xs| > 1 {
        assert j == xs[0] + (sep + Join(xs[1..], sep));
      }
      assert j[0..|xs[0]|] == xs[0];
      assert OccursAt(j, xs[0], 0);
    } else {
      var head := xs[0] + sep;
      assert j == head + Join(xs[1..], sep);
      JoinContains(xs[1..], sep, i - 1);
      var k :| OccursAt(Join(xs[1..], sep), xs[i], k);
      OccursAfterPrefix(head, Join(xs[1..], sep), xs[i], k + |head|);
    }
  }

  function AsciiUpperChar(c: char): char {
    if 'a' <= c <= 'z' then ((c as int) - 32) as char else c
  }

  /** `s.to_ascii_uppercase()`: only 'a'..'z' change. */
  function AsciiUpper(s: string): (r: string)
    ensures |r| == |s| && forall i :: 0 <= i < |s| ==> r[i] == AsciiUpperChar(s[i])
  {
    seq(|s|, i requires 0 <= i < |s| => AsciiUpperChar(s[i]))
  }

  /** `a.eq_ignore_ascii_case(b)`, stated character by character. */
  predicate EqIgnoreAsciiCase(a: string, b: string) {
    |a| == |b| && forall i :: 0 <= i < |a| ==> AsciiUpperChar(a[i]) == AsciiUpperChar(b[i])
  }

  /** Comparing upper-cased text with an upper-case name is comparing ignoring case. */
  lemma UpperMatchesIgnoringCase(t: string, name: string)
    requires AsciiUpper(name) == name
    ensures AsciiUpper(t) == name <==> EqIgnoreAsciiCase(t, name)
  {
    if EqIgnoreAsciiCase(t, name) {
      forall i | 0 <= i < |t| ensures AsciiUpper(t)[i] == name[i] {
        assert AsciiUpperChar(name[i]) == AsciiUpper(name)[i];
      }
    }
    if AsciiUpper(t) == name {
      forall i | 0 <= i < |t| ensures AsciiUpperChar(t[i]) == AsciiUpperChar(name[i]) {
        assert AsciiUpperChar(name[i]) == AsciiUpper(name)[i];
      }
    }
  }
}
