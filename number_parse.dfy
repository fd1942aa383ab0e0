/**
 * JavaScript's global `parseFloat`, as far as the weather table needs it: the
 * cell text loses its leading whitespace, and the longest prefix that reads as
 * a decimal literal (optional sign, digits with an optional fraction, optional
 * exponent) gives the value; text with no such prefix gives NaN, here `None`.
 * Values are exact reals, without binary floating-point rounding.
 */
module NumberParse {
  import opened Wrappers
  import opened LineFilter

  predicate IsDigit(ch: char)
  {
    '0' <= ch <= '9'
  }

  /** The number of decimal digits at the start of `s`. */
  function DigitRun(s: string): (n: nat)
    ensures n <= |s|
    ensures forall i :: 0 <= i < n ==> IsDigit(s[i])
    ensures n == |s| || !IsDigit(s[n])
  {
    if s != [] && IsDigit(s[0]) then 1 + DigitRun(s[1..]) else 0
  }

  /** The value of a run of decimal digits, most significant first. */
  function DigitsValue(d: string): nat
  {
    if d == [] then 0
    else DigitsValue(d[..|d| - 1]) * 10 + ((d[|d| - 1] as int - '0' as int) % 10)
  }

  /** The value of the digits after a decimal point, most significant first: `"25"` gives 0.25. */
  function FractionValue(f: string): real
  {
    if f == [] then 0.0
    else (((f[0] as int - '0' as int) % 10) as real + FractionValue(f[1..])) / 10.0
  }

  /** `m` times ten to the power `e`. */
  function Scale(m: real, e: int): real
    decreases if e < 0 then -e else e
  {
    if e == 0 then m
    else if e > 0 then 10.0 * Scale(m, e - 1)
    else Scale(m, e + 1) / 10.0
  }

  /** The length of the exponent part (`e` or `E`, an optional sign, digits) at the start of `s`; 0 when there is none. */
  function ExponentLength(s: string): (n: nat)
    ensures n <= |s|
    ensures n == 0 || (2 <= n && (if s[1] == '+' || s[1] == '-' then 3 else 2) <= n)
    ensures n == 0 || IsExponentPart(s[..n])
  {
    if |s| >= 2 && (s[0] == 'e' || s[0] == 'E') then
      var sign := if s[1] == '+' || s[1] == '-' then 1 else 0;
      var d := DigitRun(s[1 + sign..]);
      if d == 0 then 0
      else
        assert s[..1 + sign + d][1 + sign..] == s[1 + sign..][..d];
        1 + sign + d
    else 0
  }

  /** The exponent the exponent part at the start of `s` denotes; 0 when there is none. */
  function ExponentOf(s: string): int
  {
    var n := ExponentLength(s);
    if n == 0 then 0
    else
      var start := if s[1] == '+' || s[1] == '-' then 2 else 1;
      var value := DigitsValue(s[start..n]) as int;
      if s[1] == '-' then -value else value
  }

  /** The pieces of a decimal literal: integer digits, fraction digits and exponent. */
  datatype Literal = Literal(whole: string, fraction: string, exponent: int)

  /** The digits with an optional fraction at the start of `u`: their length. */
  function MantissaEnd(u: string): (m: nat)
    ensures m <= |u|
  {
    var i := DigitRun(u);
    if i < |u| && u[i] == '.' then i + 1 + DigitRun(u[i + 1..]) else i
  }

  /**
   * The unsigned decimal literal at the start of `u`, if there is one: integer
   * digits, then the digits after a point, then an exponent part.
   * `LongestLiteralPrefix` shows it reads the longest literal prefix.
   */
  function ScanUnsigned(u: string): Option<Literal>
  {
    var i := DigitRun(u);
    var m := MantissaEnd(u);
    if m == 0 || (m == 1 && u[0] == '.') then None
    else Some(Literal(u[..i], if m > i then u[i + 1..m] else "", ExponentOf(u[m..])))
  }

  /** The exact value a literal denotes. */
  function LiteralValue(lit: Literal): real
  {
    Scale(DigitsValue(lit.whole) as real + FractionValue(lit.fraction), lit.exponent)
  }

  /** The value of the unsigned decimal literal at the start of `u`, if any. */
  function UnsignedPrefix(u: string): Option<real>
  {
    match ScanUnsigned(u)
    case None => None
    case Some(lit) => Some(LiteralValue(lit))
  }

  /** The value with its sign flipped; NaN stays NaN. */
  function Negated(r: Option<real>): Option<real>
  {
    match r
    case None => None
    case Some(v) => Some(-v)
  }

  /** `s` without its leading whitespace and one leading sign: where `parseFloat` looks for an unsigned literal. */
  function UnsignedPart(s: string): string
  {
    var t := TrimStart(s);
    if t != [] && (t[0] == '-' || t[0] == '+') then t[1..] else t
  }

  /** `s` starts, after its leading whitespace, with a minus sign. */
  predicate HasMinusSign(s: string)
  {
    var t := TrimStart(s);
    t != [] && t[0] == '-'
  }

  /**
   * `parseFloat(s)`; `None` stands for NaN. After the leading whitespace and an
   * optional sign, the longest prefix that is a decimal literal gives the value,
   * negated after a minus sign; with no such prefix the result is NaN.
   */
  function ParseFloat(s: string): (r: Option<real>)
    ensures var u := UnsignedPart(s);
      r.Some? <==> exists k :: 0 <= k <= |u| && IsDecimalLiteral(u[..k])
    ensures var u := UnsignedPart(s); var n := ScanLength(u);
      r.Some? ==> IsDecimalLiteral(u[..n]) && forall k :: n < k <= |u| ==> !IsDecimalLiteral(u[..k])
    ensures var u := UnsignedPart(s); var v := UnsignedPrefix(u[..ScanLength(u)]);
      r == if HasMinusSign(s) then Negated(v) else v
  {
    var t := TrimStart(s);
    LongestLiteralPrefix(UnsignedPart(s));
    if t != [] && t[0] == '-' then Negated(UnsignedPrefix(t[1..]))
    else if t != [] && t[0] == '+' then UnsignedPrefix(t[1..])
    else UnsignedPrefix(t)
  }

  /** A character after which a digit run cannot continue as a decimal literal. */
  predicate EndsLiteral(rest: string)
  {
    rest == [] || !(IsDigit(rest[0]) || rest[0] == '.' || rest[0] == 'e' || rest[0] == 'E')
  }

  lemma {:induction false} DigitRunOfDigits(d: string, rest: string)
    requires forall i :: 0 <= i < |d| ==> IsDigit(d[i])
    requires rest == [] || !IsDigit(rest[0])
    ensures DigitRun(d + rest) == |d|
  {
    if d != [] {
      assert (d + rest)[1..] == d[1..] + rest;
      DigitRunOfDigits(d[1..], rest);
    } else {
      assert d + rest == rest;
    }
  }

  /** Text that does not start with whitespace is its own `TrimStart`. */
  lemma TrimStartUnchanged(s: string)
    requires s == [] || !IsJsWhitespace(s[0])
    ensures TrimStart(s) == s
  {
  }

  /** Text that starts with neither whitespace nor a sign is read as an unsigned literal. */
  lemma UnsignedStart(s: string)
    requires s == [] || !(IsJsWhitespace(s[0]) || s[0] == '+' || s[0] == '-')
    ensures ParseFloat(s) == UnsignedPrefix(s)
  {
    TrimStartUnchanged(s);
  }

  /** Text that starts with a minus sign is read as the negated unsigned literal after it. */
  lemma MinusStart(s: string)
    requires s != [] && s[0] == '-'
    ensures ParseFloat(s) == Negated(UnsignedPrefix(s[1..]))
  {
    TrimStartUnchanged(s);
  }

  lemma ScanDigits(d: string, rest: string)
    requires d != [] && forall i :: 0 <= i < |d| ==> IsDigit(d[i])
    requires EndsLiteral(rest)
    ensures ScanUnsigned(d + rest) == Some(Literal(d, "", 0))
  {
    var u := d + rest;
    DigitRunOfDigits(d, rest);
    assert u[..|d|] == d;
    assert u[|d|..] == rest;
    assert ExponentOf(rest) == 0;
  }

  lemma WholeValue(d: string)
    ensures LiteralValue(Literal(d, "", 0)) == DigitsValue(d) as real
  {
    assert FractionValue("") == 0.0;
    assert Scale(DigitsValue(d) as real, 0) == DigitsValue(d) as real;
  }

  lemma UnsignedDigits(d: string, rest: string)
    requires d != [] && forall i :: 0 <= i < |d| ==> IsDigit(d[i])
    requires EndsLiteral(rest)
    ensures UnsignedPrefix(d + rest) == Some(DigitsValue(d) as real)
  {
    ScanDigits(d, rest);
    WholeValue(d);
  }

  /**
   * A cell that starts with decimal digits followed by text that cannot extend
   * them parses as the value of those digits: `"10"` gives 10 and `"12abc"` gives 12.
   */
  lemma DigitsPrefixValue(d: string, rest: string)
    requires d != [] && forall i :: 0 <= i < |d| ==> IsDigit(d[i])
    requires EndsLiteral(rest)
    ensures ParseFloat(d + rest) == Some(DigitsValue(d) as real)
  {
    var s := d + rest;
    assert s[0] == d[0] && IsDigit(s[0]);
    UnsignedStart(s);
    UnsignedDigits(d, rest);
  }

  /**
   * A cell whose first character after the leading whitespace cannot start a
   * number parses as NaN, the empty cell included. (`I` is excluded too, since
   * JavaScript reads a cell starting with `Infinity` as an infinite value.)
   */
  lemma NoNumberPrefix(s: string)
    requires var t := TrimStart(s);
      t == [] || !(IsDigit(t[0]) || t[0] == '.' || t[0] == '+' || t[0] == '-' || t[0] == 'I')
    ensures ParseFloat(s) == None
  {
  }

  lemma MinusBeforeUnsigned(u: string)
    ensures ParseFloat("-" + u) == Negated(UnsignedPrefix(u))
  {
    var s := "-" + u;
    assert s[1..] == u;
    MinusStart(s);
    assert UnsignedPrefix(s[1..]) == UnsignedPrefix(u);
  }

  /** A minus sign in front of an unsigned literal negates its value, and NaN stays NaN. */
  lemma NegatedLiteral(u: string)
    requires u == [] || !(IsJsWhitespace(u[0]) || u[0] == '+' || u[0] == '-')
    ensures ParseFloat("-" + u) == Negated(ParseFloat(u))
  {
    MinusBeforeUnsigned(u);
    UnsignedStart(u);
  }

  // The grammar `parseFloat` recognises, stated on its own, and the proof that
  // the scanner reads exactly the longest prefix it accepts.

  /** Every character of `s` is a decimal digit. */
  predicate AllDigits(s: string)
  {
    forall i :: 0 <= i < |s| ==> IsDigit(s[i])
  }

  /** `e` or `E`, an optional sign, then at least one digit. */
  predicate IsExponentPart(s: string)
  {
    && |s| >= 2
    && (s[0] == 'e' || s[0] == 'E')
    && (var digits := if s[1] == '+' || s[1] == '-' then s[2..] else s[1..];
        digits != [] && AllDigits(digits))
  }

  /** Digits, or digits around one decimal point, with at least one digit: `12`, `12.`, `12.5`, `.5`. */
  ghost predicate IsMantissa(m: string)
  {
    || (m != [] && AllDigits(m))
    || (exists p :: 0 <= p < |m| && m[p] == '.' && AllDigits(m[..p]) && AllDigits(m[p + 1..]) && |m| >= 2)
  }

  /**
   * An unsigned decimal literal of the StrUnsignedDecimalLiteral production of
   * ECMA-262 (ToNumber applied to the String type), leaving out `Infinity`:
   * a mantissa followed by an optional exponent part.
   */
  ghost predicate IsDecimalLiteral(s: string)
  {
    exists k :: 0 <= k <= |s| && IsMantissa(s[..k]) && (k == |s| || IsExponentPart(s[k..]))
  }

  /** The length of the text `ScanUnsigned` reads at the start of `u`; 0 when it reads nothing. */
  function ScanLength(u: string): (n: nat)
    ensures n <= |u|
  {
    var m := MantissaEnd(u);
    if m == 0 || (m == 1 && u[0] == '.') then 0 else m + ExponentLength(u[m..])
  }

  lemma {:induction false} DigitRunCovers(s: string, k: nat)
    requires k <= |s| && AllDigits(s[..k])
    ensures DigitRun(s) >= k
  {
    if k > 0 {
      assert IsDigit(s[..k][0]);
      assert s[1..][..k - 1] == s[..k][1..];
      DigitRunCovers(s[1..], k - 1);
    }
  }

  lemma {:induction false} DigitRunStops(s: string, j: nat)
    requires j < |s| && !IsDigit(s[j])
    ensures DigitRun(s) <= j
  {
    if j > 0 && IsDigit(s[0]) {
      DigitRunStops(s[1..], j - 1);
    }
  }

  lemma {:induction false} DigitRunPrefix(s: string, j: nat)
    requires DigitRun(s) <= j <= |s|
    ensures DigitRun(s[..j]) == DigitRun(s)
  {
    if DigitRun(s) > 0 {
      assert s[..j][0] == s[0];
      assert s[..j][1..] == s[1..][..j - 1];
      DigitRunPrefix(s[1..], j - 1);
    } else if j > 0 {
      assert s[..j][0] == s[0];
    }
  }

  /** An exponent part at the start of `t` is read in full by `ExponentLength`. */
  lemma ExponentCovers(t: string, j: nat)
    requires j <= |t| && IsExponentPart(t[..j])
    ensures ExponentLength(t) >= j
  {
    var e := t[..j];
    var sign := if t[1] == '+' || t[1] == '-' then 1 else 0;
    assert e[1] == t[1];
    assert e[1 + sign..] == t[1 + sign..][..j - 1 - sign];
    DigitRunCovers(t[1 + sign..], j - 1 - sign);
  }

  /** The exponent part of `t`, cut out on its own, is still read in full. */
  lemma ExponentLengthOfPrefix(t: string)
    ensures ExponentLength(t[..ExponentLength(t)]) == ExponentLength(t)
  {
    var n := ExponentLength(t);
    if n > 0 {
      var e := t[..n];
      var sign := if t[1] == '+' || t[1] == '-' then 1 else 0;
      var d := n - 1 - sign;
      assert e[0] == t[0] && e[1] == t[1];
      assert DigitRun(e[1 + sign..]) == d by {
        TakeSlices(t, 1 + sign, n);
        DropTake(t, 1 + sign, n);
        DigitRunPrefix(t[1 + sign..], d);
      }
    }
  }

  /** The exponent read from `t` is the one read from its exponent part alone. */
  lemma ExponentOfPrefix(t: string)
    ensures ExponentOf(t[..ExponentLength(t)]) == ExponentOf(t)
  {
    var n := ExponentLength(t);
    if n > 0 {
      var e := t[..n];
      ExponentLengthOfPrefix(t);
      var start := if t[1] == '+' || t[1] == '-' then 2 else 1;
      assert e[1] == t[1];
      assert e[start..n] == t[start..n];
    }
  }

  /** `ScanUnsigned` reads something exactly when `ScanLength` is positive. */
  lemma ScanFound(u: string)
    ensures ScanUnsigned(u).Some? <==> ScanLength(u) > 0
  {
  }

  /** The digit run after position `i` is the same in every prefix of `u` that holds it. */
  lemma FractionOfPrefix(u: string, n: nat, i: nat)
    requires i < n <= |u| && i + 1 + DigitRun(u[i + 1..]) <= n
    ensures DigitRun(u[..n][i + 1..]) == DigitRun(u[i + 1..])
  {
    var w := u[i + 1..];
    assert u[..n][i + 1..] == w[..n - i - 1];
    DigitRunPrefix(w, n - i - 1);
  }

  /** A prefix that holds the whole mantissa of `u` has the same mantissa. */
  lemma MantissaOfPrefix(u: string, n: nat)
    requires MantissaEnd(u) <= n <= |u|
    ensures DigitRun(u) <= MantissaEnd(u)
    ensures DigitRun(u[..n]) == DigitRun(u) && MantissaEnd(u[..n]) == MantissaEnd(u)
  {
    var v := u[..n];
    var i := DigitRun(u);
    DigitRunPrefix(u, n);
    if i < |u| && u[i] == '.' {
      assert i < n && v[i] == '.';
      FractionOfPrefix(u, n, i);
    } else {
      assert i < n ==> v[i] == u[i];
    }
  }

  /** Two texts with the same integer digits, fraction digits and exponent scan alike. */
  lemma ScanSameParts(u: string, v: string)
    requires DigitRun(v) == DigitRun(u) && MantissaEnd(v) == MantissaEnd(u)
    requires u != [] && v != [] && v[0] == u[0]
    requires v[..DigitRun(u)] == u[..DigitRun(u)]
    requires MantissaEnd(u) > DigitRun(u) ==>
      v[DigitRun(u) + 1..MantissaEnd(u)] == u[DigitRun(u) + 1..MantissaEnd(u)]
    requires ExponentOf(v[MantissaEnd(u)..]) == ExponentOf(u[MantissaEnd(u)..])
    ensures ScanUnsigned(v) == ScanUnsigned(u)
  {
  }

  /** How the slices of a prefix `u[..n]` relate to those of `u`. */
  lemma PrefixSlices(u: string, n: nat, i: nat, m: nat)
    requires i <= m <= n <= |u| && 0 < n
    ensures u[..n][0] == u[0] && u[..n][..i] == u[..i]
    ensures m > i ==> u[..n][i + 1..m] == u[i + 1..m]
    ensures u[..n][m..] == u[m..][..n - m]
  {
  }

  /** A prefix of `u` that holds its mantissa and exactly its exponent part scans like `u`. */
  lemma PrefixScansAlike(u: string, n: nat)
    requires 0 < MantissaEnd(u) <= n <= |u|
    requires ExponentLength(u[MantissaEnd(u)..]) == n - MantissaEnd(u)
    ensures ScanUnsigned(u[..n]) == ScanUnsigned(u)
  {
    var v := u[..n];
    var i := DigitRun(u);
    var m := MantissaEnd(u);
    MantissaOfPrefix(u, n);
    PrefixSlices(u, n, i, m);
    assert ExponentOf(v[m..]) == ExponentOf(u[m..]) by {
      ExponentOfPrefix(u[m..]);
    }
    ScanSameParts(u, v);
  }

  /** What `ScanUnsigned` reads from `u` it reads from the measured prefix alone. */
  lemma ScanReadsPrefix(u: string)
    ensures ScanUnsigned(u) == ScanUnsigned(u[..ScanLength(u)])
  {
    if ScanLength(u) > 0 {
      ScanLengthParts(u);
      PrefixScansAlike(u, ScanLength(u));
    }
  }

  /** The digits and fraction `MantissaEnd` measures form a mantissa when something is read. */
  lemma MantissaIsLiteral(u: string)
    requires ScanLength(u) > 0
    ensures IsMantissa(u[..MantissaEnd(u)])
  {
    var m := MantissaEnd(u);
    var i := DigitRun(u);
    var mant := u[..m];
    RunIsDigits(u);
    if i < |u| && u[i] == '.' {
      var f := DigitRun(u[i + 1..]);
      RunIsDigits(u[i + 1..]);
      TakeSlices(u, i, m);
      TakeSlices(u, i + 1, m);
      DropTake(u, i + 1, m);
      assert mant[i] == '.' && 2 <= m;
      assert AllDigits(mant[..i]) && AllDigits(mant[i + 1..]);
    } else {
      assert mant == u[..i];
    }
  }

  /** The text `ScanLength` measures is an unsigned decimal literal. */
  lemma ScannedIsLiteral(u: string)
    requires ScanLength(u) > 0
    ensures IsDecimalLiteral(u[..ScanLength(u)])
  {
    var n := ScanLength(u);
    var m := MantissaEnd(u);
    var s := u[..n];
    MantissaIsLiteral(u);
    assert s[..m] == u[..m];
    if m < n {
      assert s[m..] == u[m..][..n - m];
    }
    assert IsMantissa(s[..m]) && (m == |s| || IsExponentPart(s[m..]));
  }

  /** The digit run at the start of `s` is all digits. */
  lemma RunIsDigits(s: string)
    ensures AllDigits(s[..DigitRun(s)])
  {
  }

  /** Taking from a suffix is slicing the whole text. */
  lemma DropTake(u: string, a: nat, b: nat)
    requires a <= b <= |u|
    ensures u[a..][..b - a] == u[a..b]
  {
  }

  /** Digits at the start of `u` lie within its digit run, which ends where a non-digit follows. */
  lemma DigitsWithinRun(u: string, q: nat)
    requires q <= |u| && AllDigits(u[..q])
    ensures q <= DigitRun(u)
    ensures q < |u| && !IsDigit(u[q]) ==> DigitRun(u) == q
  {
    DigitRunCovers(u, q);
    if q < |u| && !IsDigit(u[q]) {
      DigitRunStops(u, q);
    }
  }

  /** Digits around a point at position `p` lie within the mantissa `MantissaEnd` measures. */
  lemma PointWithinMantissa(u: string, p: nat, q: nat)
    requires p < q <= |u| && u[p] == '.'
    requires AllDigits(u[..p]) && AllDigits(u[p + 1..q])
    ensures DigitRun(u) == p && q <= MantissaEnd(u)
    ensures q < |u| && !IsDigit(u[q]) ==> MantissaEnd(u) == q
  {
    DigitsWithinRun(u, p);
    var w := u[p + 1..];
    DropTake(u, p + 1, q);
    DigitsWithinRun(w, q - p - 1);
    if q < |u| {
      assert w[q - p - 1] == u[q];
    }
  }

  /**
   * A mantissa at the start of `u` lies within what `MantissaEnd` measures,
   * and ends exactly there when a character that cannot extend it follows.
   */
  lemma MantissaWithinScan(u: string, q: nat)
    requires q <= |u| && IsMantissa(u[..q])
    ensures q <= MantissaEnd(u) && ScanLength(u) > 0
    ensures q < |u| && !IsDigit(u[q]) && u[q] != '.' ==> q == MantissaEnd(u)
  {
    var mant := u[..q];
    if mant != [] && AllDigits(mant) {
      DigitsWithinRun(u, q);
      assert IsDigit(mant[0]);
    } else {
      var p :| 0 <= p < |mant| && mant[p] == '.' && AllDigits(mant[..p]) && AllDigits(mant[p + 1..]) && |mant| >= 2;
      assert mant[..p] == u[..p] && mant[p + 1..] == u[p + 1..q];
      PointWithinMantissa(u, p, q);
    }
  }

  /** Once something is read, `ScanLength` is the mantissa followed by its exponent part. */
  lemma ScanLengthParts(u: string)
    requires ScanLength(u) > 0
    ensures ScanLength(u) == MantissaEnd(u) + ExponentLength(u[MantissaEnd(u)..])
  {
  }

  /** An exponent part right after the mantissa of `u` is within what `ScanLength` measures. */
  lemma ExponentWithinScan(u: string, k: nat)
    requires ScanLength(u) > 0 && MantissaEnd(u) < k <= |u|
    requires IsExponentPart(u[MantissaEnd(u)..k])
    ensures k <= ScanLength(u)
  {
    var m := MantissaEnd(u);
    ScanLengthParts(u);
    DropTake(u, m, k);
    ExponentCovers(u[m..], k - m);
  }

  /** Where a decimal literal's mantissa ends. */
  lemma LiteralSplit(s: string) returns (q: nat)
    requires IsDecimalLiteral(s)
    ensures q <= |s| && IsMantissa(s[..q]) && (q == |s| || IsExponentPart(s[q..]))
  {
    q :| 0 <= q <= |s| && IsMantissa(s[..q]) && (q == |s| || IsExponentPart(s[q..]));
  }

  /** Slicing a prefix is slicing the whole text. */
  lemma TakeSlices(u: string, q: nat, k: nat)
    requires q <= k <= |u|
    ensures u[..k][..q] == u[..q] && u[..k][q..] == u[q..k]
  {
  }

  /** Every prefix of `u` that is an unsigned decimal literal is within what `ScanLength` measures. */
  lemma LiteralWithinScan(u: string, k: nat)
    requires k <= |u| && IsDecimalLiteral(u[..k])
    ensures k <= ScanLength(u) && ScanLength(u) > 0
  {
    var q := LiteralSplit(u[..k]);
    TakeSlices(u, q, k);
    MantissaWithinScan(u, q);
    if q < k {
      assert u[q..k][0] == u[q];
      ExponentWithinScan(u, k);
    } else {
      ScanLengthParts(u);
    }
  }

  /**
   * `ScanUnsigned` reads a literal exactly when `u` starts with an unsigned
   * decimal literal, and what it reads is the longest such prefix: that prefix
   * is a literal, no longer prefix is one, and the rest of `u` does not change
   * the reading.
   */
  lemma LongestLiteralPrefix(u: string)
    ensures ScanUnsigned(u).Some? <==> ScanLength(u) > 0
    ensures ScanLength(u) > 0 ==> IsDecimalLiteral(u[..ScanLength(u)])
    ensures forall k :: ScanLength(u) < k <= |u| ==> !IsDecimalLiteral(u[..k])
    ensures ScanLength(u) == 0 ==> forall k :: 0 <= k <= |u| ==> !IsDecimalLiteral(u[..k])
    ensures ScanUnsigned(u) == ScanUnsigned(u[..ScanLength(u)])
  {
    ScanFound(u);
    if ScanLength(u) > 0 {
      ScannedIsLiteral(u);
    }
    forall k | 0 <= k <= |u| && IsDecimalLiteral(u[..k])
      ensures k <= ScanLength(u) && ScanLength(u) > 0
    {
      LiteralWithinScan(u, k);
    }
    ScanReadsPrefix(u);
  }
}
