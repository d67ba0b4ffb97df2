/**
 * The Python built-ins on `str` and `int` that the instance-summary tool relies on:
 * `str.isspace`, `str.strip`, `str.rsplit(sep, 1)`, `str.replace`, `str.join`,
 * `str(n)` and `int(s)`, each stated over `seq<char>`.
 */
module PyStrings {
  import opened Wrappers

  /** The characters for which `str.isspace()` holds, which are the ones `str.strip()` removes. */
  predicate IsSpace(c: char) {
    ('\t' <= c <= '\r') || ('\U{1c}' <= c <= ' ') || c == '\U{85}' || c == '\U{a0}' || c == '\U{1680}'
    || ('\U{2000}' <= c <= '\U{200a}') || c == '\U{2028}' || c == '\U{2029}' || c == '\U{202f}'
    || c == '\U{205f}' || c == '\U{3000}'
  }

  predicate AllSpace(s: string) {
    forall i :: 0 <= i < |s| ==> IsSpace(s[i])
  }

  /** `s.rstrip()`: `s` without its trailing whitespace. */
  function RStrip(s: string): string
    decreases |s|
  {
    if s == [] || !IsSpace(s[|s| - 1]) then s else RStrip(s[..|s| - 1])
  }

  /**
   * `rstrip` keeps the longest prefix that does not end in whitespace: what it drops is
   * all whitespace, and what it keeps is empty or ends in a non-space.
   */
  lemma {:induction false} RStripSpec(s: string)
    ensures RStrip(s) <= s
    ensures RStrip(s) == [] || !IsSpace(RStrip(s)[|RStrip(s)| - 1])
    ensures AllSpace(s[|RStrip(s)|..])
    decreases |s|
  {
    if s != [] && IsSpace(s[|s| - 1]) {
      var t := s[..|s| - 1];
      RStripSpec(t);
      assert s[|RStrip(s)|..] == t[|RStrip(t)|..] + [s[|s| - 1]];
    }
  }

  /** `s.lstrip()`: `s` without its leading whitespace. */
  function LStrip(s: string): string
    decreases |s|
  {
    if s == [] || !IsSpace(s[0]) then s else LStrip(s[1..])
  }

  /**
   * `lstrip` keeps the longest suffix that does not start with whitespace: what it drops
   * is all whitespace, and what it keeps is empty or starts with a non-space.
   */
  lemma {:induction false} LStripSpec(s: string)
    ensures |LStrip(s)| <= |s| && LStrip(s) == s[|s| - |LStrip(s)|..]
    ensures LStrip(s) == [] || !IsSpace(LStrip(s)[0])
    ensures AllSpace(s[..|s| - |LStrip(s)|])
    decreases |s|
  {
    if s != [] && IsSpace(s[0]) {
      var t := s[1..];
      LStripSpec(t);
      assert s[..|s| - |LStrip(s)|] == [s[0]] + t[..|t| - |LStrip(t)|];
    }
  }

  /** `s.strip()`. */
  function Strip(s: string): string {
    LStrip(RStrip(s))
  }

  /**
   * The whitespace `int()` skips around its digits. It turns non-ASCII whitespace into a
   * space and then skips the C whitespace `\t\n\v\f\r` and the space, so the separators
   * U+001C-U+001F, whitespace to `str.strip`, are not whitespace to `int()`.
   */
  predicate IntSpace(c: char) {
    IsSpace(c) && !('\U{1c}' <= c <= '\U{1f}')
  }

  /** The trailing whitespace `int()` ignores, removed. */
  function IntRStrip(s: string): string
    decreases |s|
  {
    if s == [] || !IntSpace(s[|s| - 1]) then s else IntRStrip(s[..|s| - 1])
  }

  /** The leading whitespace `int()` ignores, removed. */
  function IntLStrip(s: string): string
    decreases |s|
  {
    if s == [] || !IntSpace(s[0]) then s else IntLStrip(s[1..])
  }

  /** The text `int()` reads: its argument without the surrounding whitespace it ignores. */
  function IntStrip(s: string): string {
    IntLStrip(IntRStrip(s))
  }

  /** Removing trailing whitespace keeps a prefix that is empty or ends in a non-space. */
  lemma {:induction false} IntRStripSpec(s: string)
    ensures IntRStrip(s) <= s
    ensures IntRStrip(s) == [] || !IntSpace(IntRStrip(s)[|IntRStrip(s)| - 1])
    decreases |s|
  {
    if s != [] && IntSpace(s[|s| - 1]) {
      IntRStripSpec(s[..|s| - 1]);
    }
  }

  /** Removing leading whitespace keeps a suffix that is empty or starts with a non-space. */
  lemma {:induction false} IntLStripSpec(s: string)
    ensures |IntLStrip(s)| <= |s| && IntLStrip(s) == s[|s| - |IntLStrip(s)|..]
    ensures IntLStrip(s) == [] || !IntSpace(IntLStrip(s)[0])
    decreases |s|
  {
    if s != [] && IntSpace(s[0]) {
      IntLStripSpec(s[1..]);
    }
  }

  /** Right-stripping a concatenation strips into `a` only when `b` is all whitespace. */
  lemma {:induction false} RStripAppend(a: string, b: string)
    ensures RStrip(a + b) == if RStrip(b) == [] then RStrip(a) else a + RStrip(b)
    decreases |b|
  {
    if b == [] {
      assert a + b == a;
    } else if IsSpace(b[|b| - 1]) {
      assert (a + b)[..|a + b| - 1] == a + b[..|b| - 1];
      RStripAppend(a, b[..|b| - 1]);
    }
  }

  /** Trailing whitespace makes no difference to `rstrip`. */
  lemma RStripSpaceSuffix(a: string, w: string)
    requires AllSpace(w)
    ensures RStrip(a + w) == RStrip(a)
  {
    RStripAppend(a, w);
    RStripSpec(w);
  }

  /** `s.rfind(c)`, as an option: the position of the last `c` in `s`. */
  function LastIndexOf(s: string, c: char): Option<nat>
    decreases |s|
  {
    if s == [] then None
    else if s[|s| - 1] == c then Some(|s| - 1)
    else LastIndexOf(s[..|s| - 1], c)
  }

  /** `rfind` finds nothing exactly when `c` is absent, and otherwise the last `c`. */
  lemma {:induction false} LastIndexOfSpec(s: string, c: char)
    ensures LastIndexOf(s, c).None? <==> c !in s
    ensures LastIndexOf(s, c).Some? ==>
              LastIndexOf(s, c).value < |s| && s[LastIndexOf(s, c).value] == c && c !in s[LastIndexOf(s, c).value + 1..]
    decreases |s|
  {
    if s != [] && s[|s| - 1] != c {
      var t := s[..|s| - 1];
      LastIndexOfSpec(t, c);
      assert s == t + [s[|s| - 1]];
      if LastIndexOf(t, c).Some? {
        var k := LastIndexOf(t, c).value;
        assert s[k + 1..] == t[k + 1..] + [s[|s| - 1]];
      }
    }
  }

  /** `sep.join(xs)`. */
  function Join(sep: string, xs: seq<string>): string
    decreases |xs|
  {
    if xs == [] then ""
    else if |xs| == 1 then xs[0]
    else Join(sep, xs[..|xs| - 1]) + sep + xs[|xs| - 1]
  }

  /** Appending an item appends a separator and the item, or gives the item alone. */
  lemma JoinAppend(sep: string, xs: seq<string>, y: string)
    ensures Join(sep, xs + [y]) == if xs == [] then y else Join(sep, xs) + sep + y
  {
    assert (xs + [y])[..|xs|] == xs;
  }

  /** Joining two non-empty lists is joining each and putting one separator between. */
  lemma {:induction false} JoinConcat(sep: string, xs: seq<string>, ys: seq<string>)
    requires xs != [] && ys != []
    ensures Join(sep, xs + ys) == Join(sep, xs) + sep + Join(sep, ys)
    decreases |ys|
  {
    var init, last := ys[..|ys| - 1], ys[|ys| - 1];
    assert ys == init + [last];
    assert xs + ys == (xs + init) + [last];
    JoinAppend(sep, xs + init, last);
    JoinAppend(sep, init, last);
    if init != [] {
      JoinConcat(sep, xs, init);
    }
  }

  /** Joining the first `n` items gives a prefix of joining them all. */
  lemma {:induction false} JoinPrefix(sep: string, xs: seq<string>, n: nat)
    requires 0 < n <= |xs|
    ensures Join(sep, xs[..n]) <= Join(sep, xs)
    decreases |xs|
  {
    if n < |xs| {
      JoinPrefix(sep, xs[..|xs| - 1], n);
      assert xs[..|xs| - 1][..n] == xs[..n];
    } else {
      assert xs[..n] == xs;
    }
  }

  /**
   * The items appear in input order: item `i` starts right after the join of the items
   * before it and one separator.
   */
  lemma JoinItemAt(sep: string, xs: seq<string>, i: nat)
    requires i < |xs|
    ensures var start := if i == 0 then 0 else |Join(sep, xs[..i])| + |sep|;
            start + |xs[i]| <= |Join(sep, xs)| && Join(sep, xs)[start..start + |xs[i]|] == xs[i]
  {
    JoinPrefix(sep, xs, i + 1);
    assert xs[..i + 1][..i] == xs[..i];
  }

  /** `str.rsplit(sep, 1)` for a one-character separator: split at the last `sep` only. */
  function RSplitOnce(s: string, sep: char): seq<string> {
    LastIndexOfSpec(s, sep);
    match LastIndexOf(s, sep)
    case None => [s]
    case Some(k) => [s[..k], s[k + 1..]]
  }

  /** There are two parts exactly when `sep` occurs, and the second holds no `sep`. */
  lemma RSplitOnceSpec(s: string, sep: char)
    ensures 1 <= |RSplitOnce(s, sep)| <= 2
    ensures |RSplitOnce(s, sep)| == 1 <==> sep !in s
    ensures |RSplitOnce(s, sep)| == 2 ==> sep !in RSplitOnce(s, sep)[1]
  {
    LastIndexOfSpec(s, sep);
  }

  /** Joining the parts with the separator gives back the string: nothing is lost or added. */
  lemma RSplitOnceJoin(s: string, sep: char)
    ensures Join([sep], RSplitOnce(s, sep)) == s
  {
    LastIndexOfSpec(s, sep);
    match LastIndexOf(s, sep)
    case None =>
    case Some(k) =>
      assert s == s[..k] + [sep] + s[k + 1..];
  }

  /** `s.replace(pat, sub)`: non-overlapping occurrences of `pat`, found left to right, become `sub`. */
  function Replace(s: string, pat: string, sub: string): string
    requires pat != []
    decreases |s|
  {
    if |pat| <= |s| && s[..|pat|] == pat then sub + Replace(s[|pat|..], pat, sub)
    else if s == [] then []
    else [s[0]] + Replace(s[1..], pat, sub)
  }

  predicate IsDigit(c: char) {
    '0' <= c <= '9'
  }

  predicate AllDigits(s: string) {
    forall i :: 0 <= i < |s| ==> IsDigit(s[i])
  }

  predicate DigitsOrSeparators(s: string) {
    forall i :: 0 <= i < |s| ==> IsDigit(s[i]) || s[i] == '_'
  }

  /** Digit strings hold neither a sign nor a separator. */
  lemma DigitsHaveNoHyphen(s: string)
    requires AllDigits(s)
    ensures '-' !in s && '_' !in s
  {
  }

  /** The base-10 value of the digits of `s`, skipping the `_` separators `int()` allows. */
  function DigitsValue(s: string): nat
    requires DigitsOrSeparators(s)
    decreases |s|
  {
    if s == [] then 0
    else if s[|s| - 1] == '_' then DigitsValue(s[..|s| - 1])
    else
      assert IsDigit(s[|s| - 1]);
      10 * DigitsValue(s[..|s| - 1]) + (s[|s| - 1] as int - '0' as int)
  }

  /** The digit strings `int()` accepts after the sign: digits, each `_` between two digits. */
  predicate IsDigitGroups(s: string) {
    && |s| > 0
    && DigitsOrSeparators(s)
    && IsDigit(s[0])
    && forall i :: 0 <= i < |s| && s[i] == '_' ==> i + 1 < |s| && IsDigit(s[i + 1])
  }

  /** `str(n)` for a non-negative `n`: its decimal digits, without leading zeros. */
  function Decimal(n: nat): (r: string)
    ensures |r| > 0 && AllDigits(r)
    ensures r[0] == '0' <==> n == 0
    decreases n
  {
    if n < 10 then [('0' as int + n) as char] else Decimal(n / 10) + [('0' as int + n % 10) as char]
  }

  /** `str(i)` for any `int`. */
  function IntToStr(i: int): string {
    if i < 0 then "-" + Decimal(-i) else Decimal(i)
  }

  /** The value of an unsigned digit string, or `None` when `int()` would reject it. */
  function ParseDigitGroups(s: string): Option<nat> {
    if IsDigitGroups(s) then Some(DigitsValue(s)) else None
  }

  /** `int(s)` in base 10: `None` where Python raises `ValueError`. */
  function ParseInt(s: string): Option<int> {
    ParseSigned(IntStrip(s))
  }

  /** What `int()` makes of its argument once the surrounding whitespace is gone. */
  function ParseSigned(t: string): Option<int> {
    if t != [] && (t[0] == '+' || t[0] == '-') then
      match ParseDigitGroups(t[1..])
      case None => None
      case Some(v) =>
        var n: int := v;
        Some(if t[0] == '-' then -n else n)
    else ParseDigitGroups(t)
  }

  /** Reading back the digits `str` writes gives the number again. */
  lemma {:induction false} DecimalValue(n: nat)
    ensures DigitsValue(Decimal(n)) == n
    decreases n
  {
    if n >= 10 {
      var d := Decimal(n / 10);
      var s := d + [('0' as int + n % 10) as char];
      assert s[..|s| - 1] == d;
      DecimalValue(n / 10);
    }
  }

  /** `int()` reads a string whole when neither end is whitespace. */
  lemma IntStripNoSpaceEnds(s: string)
    requires s == [] || (!IntSpace(s[0]) && !IntSpace(s[|s| - 1]))
    ensures IntStrip(s) == s
  {
  }

  lemma DigitNotSpace(c: char)
    requires IsDigit(c)
    ensures !IntSpace(c)
  {
  }

  lemma DigitsAreGroups(ds: string)
    requires |ds| > 0 && AllDigits(ds)
    ensures ParseDigitGroups(ds) == Some(DigitsValue(ds))
  {
    assert IsDigitGroups(ds);
  }

  lemma ParseSignedDigits(ds: string, negative: bool)
    requires |ds| > 0 && AllDigits(ds)
    ensures var v: int := DigitsValue(ds);
            ParseSigned(if negative then "-" + ds else ds) == Some(if negative then -v else v)
  {
    DigitsAreGroups(ds);
    if negative {
      var m := "-" + ds;
      assert m[0] == '-' && m[1..] == ds;
    } else {
      assert ds[0] != '+' && ds[0] != '-';
    }
  }

  lemma StripDigitsUnchanged(ds: string, negative: bool)
    requires |ds| > 0 && AllDigits(ds)
    ensures var m := if negative then "-" + ds else ds; IntStrip(m) == m
  {
    var m := if negative then "-" + ds else ds;
    DigitNotSpace(ds[0]);
    DigitNotSpace(ds[|ds| - 1]);
    assert m[|m| - 1] == ds[|ds| - 1];
    IntStripNoSpaceEnds(m);
  }

  /** A plain run of digits, with or without a sign in front, reads as its value. */
  lemma ParseIntDigits(ds: string, negative: bool)
    requires |ds| > 0 && AllDigits(ds)
    ensures var v: int := DigitsValue(ds);
            ParseInt(if negative then "-" + ds else ds) == Some(if negative then -v else v)
  {
    ParseSignedDigits(ds, negative);
    StripDigitsUnchanged(ds, negative);
  }

  /** `int(str(i)) == i` for every integer. */
  lemma ParseIntOfIntToStr(i: int)
    ensures ParseInt(IntToStr(i)) == Some(i)
  {
    var n: nat := if i < 0 then -i else i;
    DecimalValue(n);
    ParseIntDigits(Decimal(n), i < 0);
  }

  /** Leading zeros change nothing: `int("0" + ds) == int(ds)` for a run of digits `ds`. */
  lemma LeadingZeroIgnored(ds: string)
    requires |ds| > 0 && AllDigits(ds)
    ensures ParseInt("0" + ds) == ParseInt(ds)
    ensures ParseInt(ds) == Some(DigitsValue(ds))
  {
    ParseIntDigits(ds, false);
    ParseIntDigits("0" + ds, false);
    DigitsValueZeroPrefix(ds);
  }

  /** A zero in front of a run of digits: still no `-`, and `int()` reads the same value. */
  lemma ZeroPaddedDigits(ds: string)
    requires |ds| > 0 && AllDigits(ds)
    ensures '-' !in ds && '-' !in "0" + ds
    ensures ParseInt("0" + ds) == ParseInt(ds) == Some(DigitsValue(ds))
  {
    DigitsHaveNoHyphen(ds);
    LeadingZeroIgnored(ds);
  }

  lemma {:induction false} DigitsValueZeroPrefix(ds: string)
    requires AllDigits(ds)
    ensures DigitsOrSeparators("0" + ds) && DigitsValue("0" + ds) == DigitsValue(ds)
    decreases |ds|
  {
    if ds != [] {
      var s := "0" + ds;
      assert s[..|s| - 1] == "0" + ds[..|ds| - 1];
      DigitsValueZeroPrefix(ds[..|ds| - 1]);
    }
  }

  /** Without a `-` in its text, `int()` can only produce a non-negative number. */
  lemma ParseIntNoMinus(s: string)
    requires '-' !in s
    ensures ParseInt(s).Some? ==> ParseInt(s).value >= 0
  {
    var r := IntRStrip(s);
    var t := IntLStrip(r);
    IntRStripSpec(s);
    IntLStripSpec(r);
    if t != [] {
      assert t[0] == r[|r| - |t|];
      assert r[|r| - |t|] == s[|r| - |t|];
    }
  }

  /**
   * `str.strip` and `int()` disagree on U+001C: `strip` removes it, `int()` rejects the
   * text that starts with it.
   */
  lemma IntRejectsFileSeparator()
    ensures Strip("\U{1c}5") == "5"
    ensures ParseInt("\U{1c}5") == None
  {
    var s := "\U{1c}5";
    assert IntRStrip(s) == s;
    assert IntLStrip(s) == s;
    assert !IsDigitGroups(s);
    assert RStrip(s) == s;
    assert LStrip(s) == LStrip(s[1..]);
  }
}
