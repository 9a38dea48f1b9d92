/**
 * The three field extractors of `WeatherHTMLParser`: total functions from a
 * cell's text to a number. They clean the text, parse what is left and fall
 * back to 0 on anything malformed, so one bad cell never stops a page parse.
 */
module FieldExtractor {
  import opened Wrappers
  import opened Text

  /** The characters `_extract_float` keeps: digits, `.` and `-`. */
  predicate IsFloatChar(c: char) {
    IsDigit(c) || c == '.' || c == '-'
  }

  /** The characters `_extract_int` keeps: digits and `-`. */
  predicate IsIntChar(c: char) {
    IsDigit(c) || c == '-'
  }

  /** Position of the first `c` in `s`, or `|s|` when there is none. */
  function IndexOf(s: string, c: char): (k: nat)
    ensures k <= |s| && (k < |s| ==> s[k] == c)
    ensures forall i :: 0 <= i < k ==> s[i] != c
  {
    if s == [] || s[0] == c then 0 else 1 + IndexOf(s[1..], c)
  }

  /** The value of the digits `fp` written after a decimal point: `"25"` is 0.25. */
  function FractionValue(fp: string): (r: real)
    requires AllDigits(fp)
    ensures 0.0 <= r < 1.0
  {
    if fp == [] then 0.0 else (DigitValue(fp[0]) as real + FractionValue(fp[1..])) / 10.0
  }

  /** The number written `ip.fp` in decimal. */
  function DecimalValue(ip: string, fp: string): real
    requires AllDigits(ip) && AllDigits(fp)
  {
    DigitsValue(ip) as real + FractionValue(fp)
  }

  function Signed(negative: bool, x: real): real {
    if negative then -x else x
  }

  function SignedInt(negative: bool, n: int): int {
    if negative then -n else n
  }

  /** `float(s)` for `s` without a sign: digits with at most one dot, at least one digit. */
  function ParseUnsigned(s: string): (r: Option<real>)
    ensures r.Some? ==> exists i :: 0 <= i < |s| && IsDigit(s[i])
  {
    var d := IndexOf(s, '.');
    var ip, fp := s[..d], if d < |s| then s[d + 1..] else "";
    if AllDigits(ip) && AllDigits(fp) && |ip| + |fp| > 0 then
      assert |ip| > 0 ==> IsDigit(s[0]);
      assert |ip| == 0 ==> IsDigit(s[d + 1]);
      Some(DecimalValue(ip, fp))
    else None
  }

  /**
   * Python's `float(s)` on the strings the parsers give it: an optional sign,
   * then digits with at most one dot. `None` stands for the `ValueError` that
   * Python raises on every other such string (`""`, `"-"`, `"."`, `"1.2.3"`, `"--5"`).
   */
  function ParseFloat(s: string): (r: Option<real>)
    ensures r.Some? ==> exists i :: 0 <= i < |s| && IsDigit(s[i])
  {
    if s != [] && (s[0] == '+' || s[0] == '-') then
      match ParseUnsigned(s[1..])
      case None => None
      case Some(v) =>
        assert exists i :: 0 <= i < |s[1..]| && IsDigit(s[1..][i]);
        Some(Signed(s[0] == '-', v))
    else ParseUnsigned(s)
  }

  /** Python's `int(s)` on a string of digits and minus signs: an optional sign, then digits. */
  function ParseInt(s: string): (r: Option<int>)
    ensures r.Some? ==> exists i :: 0 <= i < |s| && IsDigit(s[i])
    ensures r.Some? ==> forall i :: 0 < i < |s| ==> IsDigit(s[i])
  {
    if s != [] && (s[0] == '+' || s[0] == '-') then
      if |s| > 1 && AllDigits(s[1..]) then
        assert IsDigit(s[1]);
        assert forall i :: 0 < i < |s| ==> s[i] == s[1..][i - 1];
        var n: int := DigitsValue(s[1..]);
        Some(if s[0] == '-' then -n else n)
      else None
    else if s != [] && AllDigits(s) then Some(DigitsValue(s))
    else None
  }

  /** What `_extract_float` hands to `float()`. */
  function CleanFloat(text: string): string {
    Filter(ReplaceChar(Strip(text), ',', '.'), IsFloatChar)
  }

  /** What `_extract_int` hands to `int()`. */
  function CleanInt(text: string): string {
    Filter(Strip(text), IsIntChar)
  }

  predicate DigitFree(s: string) {
    forall i :: 0 <= i < |s| ==> !IsDigit(s[i])
  }

  /**
   * `_extract_float`: trim, turn the decimal comma into a dot, drop every
   * character but digits, `.` and `-`, parse; 0.0 when nothing is left or
   * what is left is not a number.
   */
  function ExtractFloat(text: string): real {
    var cleaned := CleanFloat(text);
    if cleaned == [] then 0.0 else ParseFloat(cleaned).GetOr(0.0)
  }

  /**
   * `_extract_int`: trim, drop every character but digits and `-`, parse;
   * 0 when nothing is left or what is left is not an integer. Dots are dropped,
   * not read as a decimal point.
   */
  function ExtractInt(text: string): int {
    var cleaned := CleanInt(text);
    if cleaned == [] then 0 else ParseInt(cleaned).GetOr(0)
  }

  /** End of the run of digits that starts at `i` (greedy `\d+`). */
  function DigitRunEnd(s: string, i: nat): (j: nat)
    requires i <= |s|
    ensures i <= j <= |s| && AllDigits(s[i..j]) && (j == |s| || !IsDigit(s[j]))
    decreases |s| - i
  {
    if i < |s| && IsDigit(s[i]) then
      var j := DigitRunEnd(s, i + 1);
      assert s[i..j] == [s[i]] + s[i + 1..j];
      j
    else i
  }

  /**
   * The pattern `(\d+):(\d+)` matches at position `i`: the greedy hour digits
   * cannot give one back, so the whole run of digits from `i` must be followed
   * by `:` and a digit.
   */
  predicate ClockAt(s: string, i: nat) {
    i < |s| && IsDigit(s[i]) &&
    var j := DigitRunEnd(s, i);
    j + 1 < |s| && s[j] == ':' && IsDigit(s[j + 1])
  }

  /** Where `re.search(r'(\d+):(\d+)', s)` finds its match, looking from `i` on: the leftmost `ClockAt`. */
  function FindClock(s: string, i: nat): (k: Option<nat>)
    requires i <= |s|
    ensures k.Some? ==> i <= k.value < |s| && ClockAt(s, k.value)
    ensures forall m: nat :: i <= m && (k.None? || m < k.value) ==> !ClockAt(s, m)
    decreases |s| - i
  {
    if i == |s| then None
    else if ClockAt(s, i) then Some(i)
    else FindClock(s, i + 1)
  }

  /**
   * `_extract_duration_minutes`: `hours * 60 + minutes` of the first
   * `hours:minutes` token, 0 when there is none.
   */
  function ExtractDurationMinutes(text: string): nat {
    match FindClock(text, 0)
    case None => 0
    case Some(k) =>
      var j := DigitRunEnd(text, k);
      var e := DigitRunEnd(text, j + 1);
      DigitsValue(text[k..j]) * 60 + DigitsValue(text[j + 1..e])
  }

  // ---------------------------------------------------------------------
  // What the extractors read back from a rendered number.
  // ---------------------------------------------------------------------

  /** Filtering a text without digits leaves none. */
  lemma FilterDigitFree(s: string, keep: char -> bool)
    requires DigitFree(s)
    ensures DigitFree(Filter(s, keep))
  {
    forall k | 0 <= k < |Filter(s, keep)| ensures !IsDigit(Filter(s, keep)[k]) {
      FilterFrom(s, keep, k);
    }
  }

  /** `_extract_float` gives 0.0 for a text without a digit, whatever else it holds. */
  lemma ExtractFloatWithoutDigits(text: string)
    requires DigitFree(text)
    ensures ExtractFloat(text) == 0.0
  {
    CleanFloatIgnoresStrip(text);
    var u := ReplaceChar(text, ',', '.');
    assert DigitFree(u);
    FilterDigitFree(u, IsFloatChar);
  }

  /** `_extract_int` gives 0 for a text without a digit, whatever else it holds. */
  lemma ExtractIntWithoutDigits(text: string)
    requires DigitFree(text)
    ensures ExtractInt(text) == 0
  {
    CleanIntIgnoresStrip(text);
    FilterDigitFree(text, IsIntChar);
  }

  /** Text around a number that the float cleaner throws away entirely. */
  predicate Unit(s: string) {
    forall i :: 0 <= i < |s| ==> !IsFloatChar(s[i]) && s[i] != ','
  }

  lemma {:induction false} ReplaceAppend(a: string, b: string, from: char, to: char)
    ensures ReplaceChar(a + b, from, to) == ReplaceChar(a, from, to) + ReplaceChar(b, from, to)
  {
    if a == [] {
      assert a + b == b;
    } else {
      assert (a + b)[1..] == a[1..] + b;
      ReplaceAppend(a[1..], b, from, to);
    }
  }

  lemma ReplaceNothing(s: string, from: char, to: char)
    requires forall k :: 0 <= k < |s| ==> s[k] != from
    ensures ReplaceChar(s, from, to) == s
  {
  }

  /** The float cleaner without its trimming step. */
  function FloatChars(s: string): string {
    Filter(ReplaceChar(s, ',', '.'), IsFloatChar)
  }

  lemma FloatCharsAppend(a: string, b: string)
    ensures FloatChars(a + b) == FloatChars(a) + FloatChars(b)
  {
    ReplaceAppend(a, b, ',', '.');
    FilterAppend(ReplaceChar(a, ',', '.'), ReplaceChar(b, ',', '.'), IsFloatChar);
  }

  /** A leading or trailing space is invisible to the float cleaner. */
  lemma FloatCharsOfSpace(c: char)
    requires IsSpace(c)
    ensures FloatChars([c]) == []
  {
  }

  lemma {:induction false} FloatCharsTrimStart(s: string)
    ensures FloatChars(TrimStart(s)) == FloatChars(s)
  {
    if s != [] && IsSpace(s[0]) {
      FloatCharsTrimStart(s[1..]);
      assert s == [s[0]] + s[1..];
      FloatCharsAppend([s[0]], s[1..]);
      FloatCharsOfSpace(s[0]);
    }
  }

  lemma {:induction false} FloatCharsTrimEnd(s: string)
    ensures FloatChars(TrimEnd(s)) == FloatChars(s)
  {
    if s != [] && IsSpace(s[|s| - 1]) {
      var p := s[..|s| - 1];
      FloatCharsTrimEnd(p);
      assert s == p + [s[|s| - 1]];
      FloatCharsAppend(p, [s[|s| - 1]]);
      FloatCharsOfSpace(s[|s| - 1]);
    }
  }

  /** Trimming is invisible to the float cleaner: whitespace is dropped anyway. */
  lemma CleanFloatIgnoresStrip(text: string)
    ensures CleanFloat(text) == FloatChars(text)
  {
    FloatCharsTrimEnd(TrimStart(text));
    FloatCharsTrimStart(text);
  }

  lemma {:induction false} IntCharsTrimStart(s: string)
    ensures Filter(TrimStart(s), IsIntChar) == Filter(s, IsIntChar)
  {
    if s != [] && IsSpace(s[0]) {
      IntCharsTrimStart(s[1..]);
    }
  }

  lemma {:induction false} IntCharsTrimEnd(s: string)
    ensures Filter(TrimEnd(s), IsIntChar) == Filter(s, IsIntChar)
  {
    if s != [] && IsSpace(s[|s| - 1]) {
      var p := s[..|s| - 1];
      IntCharsTrimEnd(p);
      assert s == p + [s[|s| - 1]];
      FilterAppend(p, [s[|s| - 1]], IsIntChar);
    }
  }

  /** Trimming is invisible to the integer cleaner too. */
  lemma CleanIntIgnoresStrip(text: string)
    ensures CleanInt(text) == Filter(text, IsIntChar)
  {
    IntCharsTrimEnd(TrimStart(text));
    IntCharsTrimStart(text);
  }

  /** Digits with at most one dot and at least one digit: the unsigned texts `float()` accepts among those it is given here. */
  predicate DecimalLiteral(u: string) {
    (forall i :: 0 <= i < |u| ==> IsDigit(u[i]) || u[i] == '.') &&
    (forall i, j :: 0 <= i < j < |u| && u[i] == '.' ==> u[j] != '.') &&
    (exists i :: 0 <= i < |u| && IsDigit(u[i]))
  }

  /** A decimal literal with an optional leading `+` or `-`. */
  predicate FloatLiteral(s: string) {
    DecimalLiteral(s) || (|s| > 0 && (s[0] == '+' || s[0] == '-') && DecimalLiteral(s[1..]))
  }

  /** `float()` without a sign accepts exactly the decimal literals: `"18"`, `"18."`, `".5"`, `"18.1"`. */
  lemma ParseUnsignedAccepts(s: string)
    ensures ParseUnsigned(s).Some? <==> DecimalLiteral(s)
  {
    var d := IndexOf(s, '.');
    var ip, fp := s[..d], if d < |s| then s[d + 1..] else "";
    if ParseUnsigned(s).Some? {
      forall i | 0 <= i < |s| ensures IsDigit(s[i]) || s[i] == '.' {
        if i < d {
          assert s[i] == ip[i];
        } else if i > d {
          assert s[i] == fp[i - d - 1];
        }
      }
      forall i, j | 0 <= i < j < |s| && s[i] == '.' ensures s[j] != '.' {
        assert d <= i;
        assert s[j] == fp[j - d - 1];
      }
    }
    if DecimalLiteral(s) {
      assert AllDigits(ip) by {
        forall k | 0 <= k < |ip| ensures IsDigit(ip[k]) {
          assert ip[k] == s[k];
        }
      }
      if d < |s| {
        assert AllDigits(fp) by {
          forall k | 0 <= k < |fp| ensures IsDigit(fp[k]) {
            assert fp[k] == s[d + 1 + k];
          }
        }
      }
      var i :| 0 <= i < |s| && IsDigit(s[i]);
      assert |ip| + |fp| > 0 by {
        if i >= d {
          assert fp[i - d - 1] == s[i];
        }
      }
    }
  }

  /** `float()` accepts exactly the decimal literals with an optional sign. */
  lemma ParseFloatAccepts(s: string)
    ensures ParseFloat(s).Some? <==> FloatLiteral(s)
  {
    if |s| > 0 && (s[0] == '+' || s[0] == '-') {
      ParseUnsignedAccepts(s[1..]);
      assert !DecimalLiteral(s) by {
        assert !IsDigit(s[0]) && s[0] != '.';
      }
    } else {
      ParseUnsignedAccepts(s);
    }
  }

  /** `float()` without a sign reads `ip.fp` as its decimal value; either side of the dot may be empty: `".5"` is 0.5. */
  lemma ParseUnsignedDecimal(ip: string, fp: string)
    requires AllDigits(ip) && AllDigits(fp) && |ip| + |fp| > 0
    ensures ParseUnsigned(ip + "." + fp) == Some(DecimalValue(ip, fp))
  {
    var u := ip + "." + fp;
    assert forall k :: 0 <= k < |ip| ==> u[k] == ip[k];
    assert u[|ip|] == '.';
    assert IndexOf(u, '.') == |ip|;
    assert u[..|ip|] == ip && u[|ip| + 1..] == fp;
  }

  /** `float()` without a sign reads a run of digits as its value. */
  lemma ParseUnsignedWhole(ds: string)
    requires AllDigits(ds) && |ds| > 0
    ensures ParseUnsigned(ds) == Some(DigitsValue(ds) as real)
  {
    var k := IndexOf(ds, '.');
    assert k < |ds| ==> IsDigit(ds[k]);
    assert ds[..|ds|] == ds;
  }

  /** No sign, a minus sign or a plus sign. */
  predicate IsSign(sign: string) {
    sign == "" || sign == "-" || sign == "+"
  }

  /** A sign in front of an unsigned text: `float()` reads the text and applies the sign. */
  lemma ParseFloatSigned(sign: string, u: string)
    requires IsSign(sign)
    requires |u| > 0 && (IsDigit(u[0]) || u[0] == '.')
    ensures ParseFloat(sign + u) ==
            if ParseUnsigned(u).Some? then Some(Signed(sign == "-", ParseUnsigned(u).value)) else None
  {
    var s := sign + u;
    if sign == "" {
      assert s == u;
    } else {
      assert s[0] == sign[0] && s[1..] == u;
    }
  }

  /** Replacing the decimal comma of `ip,fp` gives `ip.fp`. */
  lemma ReplaceDecimalComma(ip: string, sep: char, fp: string)
    requires AllDigits(ip) && AllDigits(fp)
    requires sep == ',' || sep == '.'
    ensures ReplaceChar(ip + [sep] + fp, ',', '.') == ip + "." + fp
  {
    ReplaceAppend(ip + [sep], fp, ',', '.');
    ReplaceAppend(ip, [sep], ',', '.');
    ReplaceNothing(ip, ',', '.');
    ReplaceNothing(fp, ',', '.');
    assert ReplaceChar([sep], ',', '.') == ".";
  }

  /** The comma of a signed number `[-]ip,fp` becomes a dot; nothing else changes. */
  lemma ReplaceSignedComma(sign: string, ip: string, sep: char, fp: string)
    requires IsSign(sign)
    requires AllDigits(ip) && AllDigits(fp)
    requires sep == ',' || sep == '.'
    ensures ReplaceChar(sign + ip + [sep] + fp, ',', '.') == sign + ip + "." + fp
  {
    var a := sign + ip;
    ReplaceAppend(a + [sep], fp, ',', '.');
    ReplaceAppend(a, [sep], ',', '.');
    ReplaceNothing(a, ',', '.');
    ReplaceNothing(fp, ',', '.');
    assert ReplaceChar([sep], ',', '.') == ".";
  }

  /** A signed number written with a dot is made only of characters the float cleaner keeps. */
  lemma SignedNumberKept(sign: string, ip: string, fp: string)
    requires sign == "" || sign == "-"
    requires AllDigits(ip) && AllDigits(fp)
    ensures Filter(sign + ip + "." + fp, IsFloatChar) == sign + ip + "." + fp
  {
    var a := sign + ip;
    var num := a + "." + fp;
    forall k | 0 <= k < |num| ensures IsFloatChar(num[k]) {
      if k < |sign| {
      } else if k < |a| {
        assert num[k] == ip[k - |sign|];
      } else if k > |a| {
        assert num[k] == fp[k - |a| - 1];
      }
    }
    FilterKeepsAll(num, IsFloatChar);
  }

  /** The float cleaner keeps a signed number whole and turns its decimal comma into a dot. */
  lemma FloatCharsOfNumber(sign: string, ip: string, sep: char, fp: string)
    requires sign == "" || sign == "-"
    requires AllDigits(ip) && AllDigits(fp)
    requires sep == ',' || sep == '.'
    ensures FloatChars(sign + ip + [sep] + fp) == sign + ip + "." + fp
  {
    ReplaceSignedComma(sign, ip, sep, fp);
    SignedNumberKept(sign, ip, fp);
  }

  /** Text the float cleaner drops entirely. */
  lemma FloatCharsOfUnit(s: string)
    requires Unit(s)
    ensures FloatChars(s) == []
  {
    ReplaceNothing(s, ',', '.');
    FilterEmptyIff(s, IsFloatChar);
  }

  /** Text on either side that the float cleaner drops leaves only what it keeps of the middle. */
  lemma FloatCharsAround(pre: string, mid: string, post: string)
    requires Unit(pre) && Unit(post)
    ensures FloatChars(pre + mid + post) == FloatChars(mid)
  {
    FloatCharsAppend(pre + mid, post);
    FloatCharsAppend(pre, mid);
    FloatCharsOfUnit(pre);
    FloatCharsOfUnit(post);
  }

  /** Around a number, the float cleaner keeps exactly the number, its comma turned into a dot. */
  lemma CleanFloatOfNumber(pre: string, sign: string, ip: string, sep: char, fp: string, post: string)
    requires Unit(pre) && Unit(post)
    requires sign == "" || sign == "-"
    requires AllDigits(ip) && AllDigits(fp)
    requires sep == ',' || sep == '.'
    ensures CleanFloat(pre + sign + ip + [sep] + fp + post) == sign + ip + "." + fp
  {
    var mid := sign + ip + [sep] + fp;
    var text := pre + sign + ip + [sep] + fp + post;
    assert text == pre + mid + post;
    CleanFloatIgnoresStrip(text);
    FloatCharsAround(pre, mid, post);
    FloatCharsOfNumber(sign, ip, sep, fp);
  }

  /** `float()` reads `[+-]ip.fp` as its signed value: `"18.1"` is 18.1, `"-.5"` is -0.5, `"+1.2"` is 1.2. */
  lemma ParseFloatReads(sign: string, ip: string, fp: string)
    requires IsSign(sign)
    requires AllDigits(ip) && AllDigits(fp) && |ip| + |fp| > 0
    ensures ParseFloat(sign + ip + "." + fp) == Some(Signed(sign == "-", DecimalValue(ip, fp)))
  {
    var u := ip + "." + fp;
    assert sign + ip + "." + fp == sign + u;
    assert u[0] == if |ip| > 0 then ip[0] else '.';
    ParseUnsignedDecimal(ip, fp);
    ParseFloatSigned(sign, u);
  }

  /** `float()` reads `[+-]ds` as its signed value: `"98"` is 98.0, `"-5"` is -5.0. */
  lemma ParseFloatWhole(sign: string, ds: string)
    requires IsSign(sign)
    requires AllDigits(ds) && |ds| > 0
    ensures ParseFloat(sign + ds) == Some(Signed(sign == "-", DigitsValue(ds) as real))
  {
    ParseUnsignedWhole(ds);
    ParseFloatSigned(sign, ds);
  }

  /**
   * `_extract_float` reads back a decimal written with a comma or a dot,
   * with an optional minus sign, amid units and labels: `"18,1 °C"` is 18.1.
   */
  lemma ExtractFloatReadsDecimal(pre: string, negative: bool, ip: string, sep: char, fp: string, post: string)
    requires Unit(pre) && Unit(post)
    requires AllDigits(ip) && AllDigits(fp) && |ip| + |fp| > 0
    requires sep == ',' || sep == '.'
    ensures ExtractFloat(pre + (if negative then "-" else "") + ip + [sep] + fp + post)
            == Signed(negative, DecimalValue(ip, fp))
  {
    var sign := if negative then "-" else "";
    CleanFloatOfNumber(pre, sign, ip, sep, fp, post);
    ParseFloatReads(sign, ip, fp);
    assert sign + ip + "." + fp != [];
  }

  /** A signed run of digits is made only of characters the float cleaner keeps. */
  lemma SignedWholeKept(sign: string, ds: string)
    requires sign == "" || sign == "-"
    requires AllDigits(ds)
    ensures FloatChars(sign + ds) == sign + ds
  {
    var num := sign + ds;
    forall k | 0 <= k < |num| ensures IsFloatChar(num[k]) && num[k] != ',' {
      if k >= |sign| {
        assert num[k] == ds[k - |sign|];
      }
    }
    ReplaceNothing(num, ',', '.');
    FilterKeepsAll(num, IsFloatChar);
  }

  /** `_extract_float` reads back a whole number, with an optional minus sign, amid units and labels: `"12 km/h"` is 12.0. */
  lemma ExtractFloatReadsWhole(pre: string, negative: bool, ds: string, post: string)
    requires Unit(pre) && Unit(post)
    requires AllDigits(ds) && |ds| > 0
    ensures ExtractFloat(pre + (if negative then "-" else "") + ds + post) == Signed(negative, DigitsValue(ds) as real)
  {
    var sign := if negative then "-" else "";
    var mid := sign + ds;
    var text := pre + sign + ds + post;
    assert text == pre + mid + post;
    assert CleanFloat(text) == mid by {
      CleanFloatIgnoresStrip(text);
      FloatCharsAround(pre, mid, post);
      SignedWholeKept(sign, ds);
    }
    ParseFloatWhole(sign, ds);
  }

  /** `int()` reads `[+-]ds` as its signed value: `"65"` is 65, `"-5"` is -5. */
  lemma ParseIntSigned(sign: string, ds: string)
    requires IsSign(sign)
    requires AllDigits(ds) && |ds| > 0
    ensures ParseInt(sign + ds) == Some(SignedInt(sign == "-", DigitsValue(ds)))
  {
    var s := sign + ds;
    if sign == "" {
      assert s == ds;
      assert IsDigit(ds[0]) && ds[0] != '+' && ds[0] != '-';
    } else {
      assert s[0] == sign[0] && s[1..] == ds;
      assert |s| > 1 && AllDigits(s[1..]);
    }
  }

  /** When the integer cleaner leaves a signed run of digits, `_extract_int` gives its signed value. */
  lemma ExtractIntOfDigits(text: string, sign: string, ds: string)
    requires sign == "" || sign == "-"
    requires Filter(text, IsIntChar) == sign + ds
    requires AllDigits(ds) && |ds| > 0
    ensures ExtractInt(text) == SignedInt(sign == "-", DigitsValue(ds))
  {
    CleanIntIgnoresStrip(text);
    ParseIntSigned(sign, ds);
  }

  /** Text around a number that the integer cleaner throws away entirely. */
  predicate IntUnit(s: string) {
    forall i :: 0 <= i < |s| ==> !IsIntChar(s[i])
  }

  /** The integer cleaner keeps of `pre + mid + post` only what it keeps of `mid`, when `pre` and `post` hold no digit and no minus. */
  lemma IntCharsAround(pre: string, mid: string, post: string)
    requires IntUnit(pre) && IntUnit(post)
    ensures Filter(pre + mid + post, IsIntChar) == Filter(mid, IsIntChar)
  {
    FilterAppend(pre + mid, post, IsIntChar);
    FilterAppend(pre, mid, IsIntChar);
    FilterEmptyIff(pre, IsIntChar);
    FilterEmptyIff(post, IsIntChar);
  }

  /** A signed run of digits is made only of characters the integer cleaner keeps. */
  lemma SignedDigitsKept(sign: string, ds: string)
    requires sign == "" || sign == "-"
    requires AllDigits(ds)
    ensures Filter(sign + ds, IsIntChar) == sign + ds
  {
    var num := sign + ds;
    forall k | 0 <= k < |num| ensures IsIntChar(num[k]) {
      if k >= |sign| {
        assert num[k] == ds[k - |sign|];
      }
    }
    FilterKeepsAll(num, IsIntChar);
  }

  /** Around a signed run of digits, the integer cleaner keeps exactly that run. */
  lemma IntCharsOfSigned(pre: string, sign: string, ds: string, post: string)
    requires IntUnit(pre) && IntUnit(post)
    requires sign == "" || sign == "-"
    requires AllDigits(ds)
    ensures Filter(pre + sign + ds + post, IsIntChar) == sign + ds
  {
    var mid := sign + ds;
    assert Filter(pre + mid + post, IsIntChar) == mid by {
      IntCharsAround(pre, mid, post);
      SignedDigitsKept(sign, ds);
    }
    assert pre + sign + ds == pre + mid;
  }

  /** `_extract_int` reads back a run of digits, with an optional minus sign, amid units and labels: `"65 %"` is 65. */
  lemma ExtractIntReadsDigits(pre: string, negative: bool, ds: string, post: string)
    requires IntUnit(pre) && IntUnit(post)
    requires AllDigits(ds) && |ds| > 0
    ensures ExtractInt(pre + (if negative then "-" else "") + ds + post) == SignedInt(negative, DigitsValue(ds))
  {
    var sign := if negative then "-" else "";
    IntCharsOfSigned(pre, sign, ds, post);
    ExtractIntOfDigits(pre + sign + ds + post, sign, ds);
  }

  /** The integer cleaner drops a decimal point between two runs of digits. */
  lemma IntCharsDropDot(ip: string, fp: string)
    requires AllDigits(ip) && AllDigits(fp)
    ensures Filter(ip + "." + fp, IsIntChar) == ip + fp
  {
    FilterAppend(ip + ".", fp, IsIntChar);
    FilterAppend(ip, ".", IsIntChar);
    FilterKeepsAll(ip, IsIntChar);
    FilterKeepsAll(fp, IsIntChar);
    assert Filter(".", IsIntChar) == [];
  }

  /** `_extract_int` drops the decimal point instead of reading it: `"12.5"` gives 125. */
  lemma ExtractIntDropsDot(ip: string, fp: string)
    requires AllDigits(ip) && AllDigits(fp) && |ip| + |fp| > 0
    ensures AllDigits(ip + fp)
    ensures ExtractInt(ip + "." + fp) == DigitsValue(ip) * Pow10(|fp|) + DigitsValue(fp)
  {
    DigitsValueAppend(ip, fp);
    IntCharsDropDot(ip, fp);
    assert "" + (ip + fp) == ip + fp;
    ExtractIntOfDigits(ip + "." + fp, "", ip + fp);
  }

  /** `float()` without a sign rejects any minus sign. */
  lemma ParseUnsignedRejectsMinus(s: string, i: nat)
    requires i < |s| && s[i] == '-'
    ensures ParseUnsigned(s) == None
  {
    var d := IndexOf(s, '.');
    if i < d {
      assert s[..d][i] == '-';
    } else {
      assert s[d + 1..][i - d - 1] == '-';
    }
  }

  /** `float()` without a sign rejects a second dot. */
  lemma ParseUnsignedRejectsTwoDots(s: string, i: nat, j: nat)
    requires i < j < |s| && s[i] == '.' && s[j] == '.'
    ensures ParseUnsigned(s) == None
  {
    var d := IndexOf(s, '.');
    assert d <= i;
    assert s[d + 1..][j - d - 1] == '.';
  }

  /**
   * `float()` rejects what the float cleaner can leave that is not a number:
   * a minus sign after the first character, or two dots.
   */
  lemma ParseFloatRejects(s: string, i: nat, j: nat)
    requires i < j < |s|
    requires s[j] == '-' || (s[i] == '.' && s[j] == '.')
    ensures ParseFloat(s) == None
  {
    if s[0] == '+' || s[0] == '-' {
      var u := s[1..];
      assert u[j - 1] == s[j];
      if s[j] == '-' {
        ParseUnsignedRejectsMinus(u, j - 1);
      } else if i == 0 {
        assert false;
      } else {
        assert u[i - 1] == '.';
        ParseUnsignedRejectsTwoDots(u, i - 1, j - 1);
      }
    } else if s[j] == '-' {
      ParseUnsignedRejectsMinus(s, j);
    } else {
      ParseUnsignedRejectsTwoDots(s, i, j);
    }
  }

  /** `_extract_float` gives 0.0 when what the cleaner leaves has a minus sign after its start, or two dots. */
  lemma ExtractFloatMalformed(text: string, i: nat, j: nat)
    requires i < j < |CleanFloat(text)|
    requires CleanFloat(text)[j] == '-' || (CleanFloat(text)[i] == '.' && CleanFloat(text)[j] == '.')
    ensures ExtractFloat(text) == 0.0
  {
    ParseFloatRejects(CleanFloat(text), i, j);
  }

  /** `int()` rejects a minus sign after the first character. */
  lemma ParseIntRejectsMinus(s: string, i: nat)
    requires 0 < i < |s| && s[i] == '-'
    ensures ParseInt(s) == None
  {
    if s[0] == '+' || s[0] == '-' {
      assert s[1..][i - 1] == '-';
    }
  }

  /** `_extract_int` gives 0 when what the cleaner leaves has a minus sign after its start: `"5-"` and `"--5"`. */
  lemma ExtractIntMalformed(text: string, i: nat)
    requires 0 < i < |CleanInt(text)| && CleanInt(text)[i] == '-'
    ensures ExtractInt(text) == 0
  {
    ParseIntRejectsMinus(CleanInt(text), i);
  }

  /** Text made only of digits, dots and minus signs reaches `float()` unchanged. */
  lemma CleanFloatKeepsAll(s: string)
    requires forall k :: 0 <= k < |s| ==> IsFloatChar(s[k])
    ensures CleanFloat(s) == s
  {
    CleanFloatIgnoresStrip(s);
    ReplaceNothing(s, ',', '.');
    FilterKeepsAll(s, IsFloatChar);
  }

  lemma TwoDotsKept(a: string, b: string, c: string)
    requires AllDigits(a) && AllDigits(b) && AllDigits(c)
    ensures forall k :: 0 <= k < |a + "." + b + "." + c| ==> IsFloatChar((a + "." + b + "." + c)[k])
  {
    var s := a + "." + b + "." + c;
    forall k | 0 <= k < |s| ensures IsFloatChar(s[k]) {
      if k < |a| {
        assert s[k] == a[k];
      } else if |a| < k <= |a| + |b| {
        assert s[k] == b[k - |a| - 1];
      } else if k > |a| + |b| + 1 {
        assert s[k] == c[k - |a| - |b| - 2];
      }
    }
  }

  /** Three runs of digits joined by two dots, like `"1.2.3"`: `_extract_float` falls back to 0.0. */
  lemma ExtractFloatTwoDots(a: string, b: string, c: string)
    requires AllDigits(a) && AllDigits(b) && AllDigits(c)
    ensures ExtractFloat(a + "." + b + "." + c) == 0.0
  {
    var s := a + "." + b + "." + c;
    var i, j := |a|, |a| + |b| + 1;
    assert i < j < |CleanFloat(s)| && CleanFloat(s)[i] == '.' && CleanFloat(s)[j] == '.' by {
      TwoDotsKept(a, b, c);
      CleanFloatKeepsAll(s);
      assert s[i] == '.' && s[j] == '.';
    }
    ExtractFloatMalformed(s, i, j);
  }

  /** Text made only of digits and minus signs reaches `int()` unchanged. */
  lemma CleanIntKeepsAll(s: string)
    requires forall k :: 0 <= k < |s| ==> IsIntChar(s[k])
    ensures CleanInt(s) == s
  {
    CleanIntIgnoresStrip(s);
    FilterKeepsAll(s, IsIntChar);
  }

  lemma DigitsMinusKept(a: string, b: string)
    requires AllDigits(a) && AllDigits(b)
    ensures forall k :: 0 <= k < |a + "-" + b| ==> IsIntChar((a + "-" + b)[k])
  {
    var s := a + "-" + b;
    forall k | 0 <= k < |s| ensures IsIntChar(s[k]) {
      if k < |a| {
        assert s[k] == a[k];
      } else if k > |a| {
        assert s[k] == b[k - |a| - 1];
      }
    }
  }

  /** A minus sign between or after digits, like `"5-"` or `"12-3"`: `_extract_int` falls back to 0. */
  lemma ExtractIntInnerMinus(a: string, b: string)
    requires AllDigits(a) && |a| > 0 && AllDigits(b)
    ensures ExtractInt(a + "-" + b) == 0
  {
    var s := a + "-" + b;
    assert 0 < |a| < |CleanInt(s)| && CleanInt(s)[|a|] == '-' by {
      DigitsMinusKept(a, b);
      CleanIntKeepsAll(s);
      assert s[|a|] == '-';
    }
    ExtractIntMalformed(s, |a|);
  }

  /** A run of digits from `i` to `j` that no digit follows ends at `j`. */
  lemma {:induction false} DigitRunEndAt(s: string, i: nat, j: nat)
    requires i <= j <= |s| && AllDigits(s[i..j]) && (j == |s| || !IsDigit(s[j]))
    ensures DigitRunEnd(s, i) == j
    decreases j - i
  {
    if i < j {
      assert s[i] == s[i..j][0];
      assert s[i + 1..j] == s[i..j][1..];
      DigitRunEndAt(s, i + 1, j);
    }
  }

  /** A match with none before it is the one `re.search` finds. */
  lemma FindClockFirst(s: string, k: nat)
    requires ClockAt(s, k)
    requires forall m: nat :: m < k ==> !ClockAt(s, m)
    ensures FindClock(s, 0) == Some(k)
  {
  }

  /** A clock token at `k` with no digit before it: the match is at `k` and both runs of digits are whole. */
  lemma ClockMatchAt(text: string, k: nat, h: nat, m: nat)
    requires forall i :: 0 <= i < k && i < |text| ==> !IsDigit(text[i])
    requires h > 0 && m > 0 && k + h + 1 + m <= |text|
    requires AllDigits(text[k..k + h]) && text[k + h] == ':' && AllDigits(text[k + h + 1..k + h + 1 + m])
    requires k + h + 1 + m == |text| || !IsDigit(text[k + h + 1 + m])
    ensures FindClock(text, 0) == Some(k)
    ensures DigitRunEnd(text, k) == k + h && DigitRunEnd(text, k + h + 1) == k + h + 1 + m
  {
    var j, e := k + h, k + h + 1 + m;
    DigitRunEndAt(text, k, j);
    DigitRunEndAt(text, j + 1, e);
    assert IsDigit(text[k..j][0]) && IsDigit(text[j + 1..e][0]);
    assert ClockAt(text, k);
    FindClockFirst(text, k);
  }

  /** Once the match and its two runs of digits are known, the duration is hours times 60 plus minutes. */
  lemma ExtractDurationAt(text: string, k: nat, hs: string, ms: string)
    requires FindClock(text, 0) == Some(k)
    requires AllDigits(hs) && AllDigits(ms)
    requires DigitRunEnd(text, k) == k + |hs| && DigitRunEnd(text, k + |hs| + 1) == k + |hs| + 1 + |ms|
    requires text[k..k + |hs|] == hs && text[k + |hs| + 1..k + |hs| + 1 + |ms|] == ms
    ensures ExtractDurationMinutes(text) == DigitsValue(hs) * 60 + DigitsValue(ms)
  {
  }

  /**
   * `_extract_duration_minutes` reads back `hours:minutes` written at `k`
   * with no digit before it and none right after it: `"2:27 h"` is 147 minutes.
   */
  lemma ExtractDurationReadsClock(text: string, k: nat, hs: string, ms: string)
    requires forall i :: 0 <= i < k && i < |text| ==> !IsDigit(text[i])
    requires AllDigits(hs) && |hs| > 0 && AllDigits(ms) && |ms| > 0
    requires k + |hs| + 1 + |ms| <= |text|
    requires text[k..k + |hs|] == hs && text[k + |hs|] == ':' && text[k + |hs| + 1..k + |hs| + 1 + |ms|] == ms
    requires k + |hs| + 1 + |ms| == |text| || !IsDigit(text[k + |hs| + 1 + |ms|])
    ensures ExtractDurationMinutes(text) == DigitsValue(hs) * 60 + DigitsValue(ms)
  {
    ClockMatchAt(text, k, |hs|, |ms|);
    ExtractDurationAt(text, k, hs, ms);
  }

  /** Without an `hours:minutes` token anywhere in the text the duration is 0. */
  lemma ExtractDurationWithoutClock(text: string)
    requires forall i: nat :: !ClockAt(text, i)
    ensures ExtractDurationMinutes(text) == 0
  {
  }

  /** Without a colon there is no `hours:minutes` token: the duration is 0. */
  lemma ExtractDurationWithoutColon(text: string)
    requires forall i :: 0 <= i < |text| ==> text[i] != ':'
    ensures ExtractDurationMinutes(text) == 0
  {
  }

  lemma DecimalEighteenPointOne()
    ensures DecimalValue("18", "1") == 18.1
  {
    assert DigitsValue("18") == 18 by { assert "18"[..1] == "1"; }
    assert FractionValue("1") == 0.1 by { assert "1"[1..] == ""; }
  }

  /** The French decimal comma the source mentions: `"18,1 °C"` is 18.1. */
  lemma ExtractFloatExample()
    ensures ExtractFloat("18,1 \U{b0}C") == 18.1
  {
    assert "18,1 \U{b0}C" == "" + "" + "18" + [','] + "1" + " \U{b0}C";
    ExtractFloatReadsDecimal("", false, "18", ',', "1", " \U{b0}C");
    DecimalEighteenPointOne();
  }

  /** `"12.5"` read as an integer is 125, not 12. */
  lemma ExtractIntExample()
    ensures ExtractInt("12" + "." + "5") == 125
  {
    ExtractIntDropsDot("12", "5");
    assert DigitsValue("12") == 12 by { assert "12"[..1] == "1"; }
  }

  lemma ClockValues()
    ensures DigitsValue("2") * 60 + DigitsValue("27") == 147
    ensures DigitsValue("2176") * 60 + DigitsValue("45") == 130605
  {
    assert DigitsValue("27") == 27 by { assert "27"[..1] == "2"; }
    assert DigitsValue("2176") == 2176 by {
      assert "2176"[..3] == "217";
      assert "217"[..2] == "21";
      assert "21"[..1] == "2";
    }
    assert DigitsValue("45") == 45 by { assert "45"[..1] == "4"; }
  }

  /** The figure the source's comment gives for `_extract_duration_minutes`: `"2:27 h"` is 147 minutes. */
  lemma ExtractDurationExample()
    ensures ExtractDurationMinutes("2:27 h") == 147
  {
    ExtractDurationReadsClock("2:27 h", 0, "2", "27");
    ClockValues();
  }

  /** Hours are not capped at two digits: a yearly total `"2176:45 h"` is 130605 minutes. */
  lemma ExtractDurationYearExample()
    ensures ExtractDurationMinutes("2176:45 h") == 130605
  {
    ExtractDurationReadsClock("2176:45 h", 0, "2176", "45");
    ClockValues();
  }
}
