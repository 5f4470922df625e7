/** `decimalStringToBigInt(value, decimals)` of `wallet.lightning.service.js`: a
    display-unit decimal string to an integer count of the smallest unit,
    truncating (never rounding) fractional digits beyond `decimals`. */
module DecimalUnits {
  import opened Wrappers
  import opened Text

  const InvalidDecimal := "Invalid decimal string"

  /** Declarative reading of the pattern `^\d+(\.\d+)?$`: digits, optionally a dot
      followed by more digits. */
  predicate IsDecimal(s: string) {
    || (|s| > 0 && AllDigits(s))
    || exists p :: 0 < p < |s| - 1 && s[p] == '.' && AllDigits(s[..p]) && AllDigits(s[p + 1..])
  }

  /** Position of the first '.', if any. */
  function FirstDot(s: string): (r: Option<nat>)
    ensures r.Some? ==> r.value < |s| && s[r.value] == '.' && forall j :: 0 <= j < r.value ==> s[j] != '.'
    ensures r.None? ==> forall j :: 0 <= j < |s| ==> s[j] != '.'
  {
    if s == [] then None
    else if s[0] == '.' then Some(0)
    else match FirstDot(s[1..])
      case None => None
      case Some(k) => Some(k + 1)
  }

  /** The pattern test as a scan for the first dot. */
  predicate MatchesPattern(s: string) {
    match FirstDot(s)
    case None => |s| > 0 && AllDigits(s)
    case Some(p) => 0 < p < |s| - 1 && AllDigits(s[..p]) && AllDigits(s[p + 1..])
  }

  /** `[intPart, fracPart = ''] = value.split('.')` on a matching string. */
  function IntPart(s: string): string {
    match FirstDot(s)
    case None => s
    case Some(p) => s[..p]
  }

  function FracPart(s: string): string {
    match FirstDot(s)
    case None => ""
    case Some(p) => s[p + 1..]
  }

  /** `(fracPart + '0'.repeat(decimals)).slice(0, decimals)` */
  function Padded(frac: string, decimals: nat): (r: string)
    ensures |r| == decimals
  {
    Take(frac + Zeros(decimals), decimals)
  }

  function DecimalStringToBigInt(value: string, decimals: nat): (r: Result<int>)
    ensures r.Ok? <==> IsDecimal(value)
    ensures r.Err? ==> r.message == InvalidDecimal
    ensures r.Ok? ==> r.value >= 0
  {
    PatternIffDecimal(value);
    if !MatchesPattern(value) then Err(InvalidDecimal)
    else
      var padded := Padded(FracPart(value), decimals);
      PaddedDigits(FracPart(value), decimals);
      AllDigitsAppend(IntPart(value), padded);
      Ok(DigitsValue(IntPart(value) + padded))
  }

  lemma PaddedDigits(frac: string, decimals: nat)
    requires AllDigits(frac)
    ensures AllDigits(Padded(frac, decimals))
  {
    var z := Zeros(decimals);
    assert AllDigits(z) by { ZerosValue(decimals); }
    AllDigitsAppend(frac, z);
    var t := Padded(frac, decimals);
    forall i | 0 <= i < |t| ensures IsDigit(t[i]) {
      assert t[i] == (frac + z)[i];
    }
  }

  /** The scan agrees with the declarative pattern. */
  lemma PatternIffDecimal(s: string)
    ensures MatchesPattern(s) <==> IsDecimal(s)
    ensures MatchesPattern(s) ==> AllDigits(IntPart(s)) && AllDigits(FracPart(s))
  {
    match FirstDot(s)
    case None =>
    case Some(p) =>
      assert !IsDigit(s[p]);
      forall q | 0 < q < |s| - 1 && s[q] == '.' && AllDigits(s[..q])
        ensures q == p
      {
        NoDotInDigits(s[..q]);
        forall j | 0 <= j < q ensures s[j] != '.' {
          assert s[j] == s[..q][j];
        }
      }
  }

  /** A run of digits holds no dot. */
  lemma {:induction false} NoDotInDigits(s: string)
    requires AllDigits(s)
    ensures FirstDot(s).None?
  {
    if s != [] {
      assert s[0] != '.';
      NoDotInDigits(s[1..]);
    }
  }

  /** How a dotted decimal is split. */
  lemma SplitDotted(i: string, f: string)
    requires |i| > 0 && |f| > 0 && AllDigits(i) && AllDigits(f)
    ensures var s := i + "." + f;
            FirstDot(s) == Some(|i|) && IntPart(s) == i && FracPart(s) == f && IsDecimal(s)
  {
    var s := i + "." + f;
    var k := FirstScanned(s, |i|);
    assert s[..|i|] == i;
    assert s[|i| + 1..] == f;
  }

  /** `FirstDot` returns the first dot when everything before it is not a dot. */
  lemma {:induction false} FirstScanned(s: string, p: nat) returns (k: nat)
    requires p < |s| && s[p] == '.' && forall j :: 0 <= j < p ==> s[j] != '.'
    ensures k == p && FirstDot(s) == Some(p)
  {
    k := p;
    if p > 0 {
      var k' := FirstScanned(s[1..], p - 1);
    }
  }

  lemma WholeNoDot(i: string)
    requires |i| > 0 && AllDigits(i)
    ensures FirstDot(i).None? && IntPart(i) == i && FracPart(i) == "" && IsDecimal(i)
  {
    NoDotInDigits(i);
  }

  /** Padding with at least as many places as digits appends zeros. */
  lemma PaddedShort(frac: string, decimals: nat)
    requires |frac| <= decimals
    ensures Padded(frac, decimals) == frac + Zeros(decimals - |frac|)
  {
    var t := Padded(frac, decimals);
    var z := Zeros(decimals);
    forall j | 0 <= j < decimals ensures t[j] == (frac + Zeros(decimals - |frac|))[j] {
      assert t[j] == (frac + z)[j];
    }
  }

  lemma PaddedLong(frac: string, decimals: nat)
    requires |frac| >= decimals
    ensures Padded(frac, decimals) == frac[..decimals]
  {
    var t := Padded(frac, decimals);
    forall j | 0 <= j < decimals ensures t[j] == frac[j] {
      assert t[j] == (frac + Zeros(decimals))[j];
    }
  }

  /** A string of `n` digits denotes less than 10^n. */
  lemma {:induction false} DigitsValueBound(s: string)
    requires AllDigits(s)
    ensures DigitsValue(s) < Pow10(|s|)
    decreases |s|
  {
    if s != [] {
      DigitsValueBound(s[..|s| - 1]);
    }
  }

  /** Appending zeros multiplies by a power of ten. */
  lemma ShiftByZeros(s: string, n: nat)
    requires AllDigits(s)
    ensures AllDigits(s + Zeros(n)) && DigitsValue(s + Zeros(n)) == DigitsValue(s) * Pow10(n)
  {
    ZerosValue(n);
    DigitsValueAppend(s, Zeros(n));
  }

  /** A whole number scales by 10^decimals. */
  lemma WholeScaled(i: string, decimals: nat)
    requires |i| > 0 && AllDigits(i)
    ensures DecimalStringToBigInt(i, decimals) == Ok(DigitsValue(i) * Pow10(decimals))
  {
    WholeNoDot(i);
    PaddedShort("", decimals);
    assert Padded("", decimals) == Zeros(decimals);
    ShiftByZeros(i, decimals);
  }

  /** A dotted decimal converts to the digits of its whole part followed by the
      padded or cut fractional part. */
  lemma DottedValue(i: string, f: string, decimals: nat)
    requires |i| > 0 && |f| > 0 && AllDigits(i) && AllDigits(f)
    ensures AllDigits(i + Padded(f, decimals))
    ensures DecimalStringToBigInt(i + "." + f, decimals) == Ok(DigitsValue(i + Padded(f, decimals)))
  {
    SplitDotted(i, f);
    PaddedDigits(f, decimals);
    AllDigitsAppend(i, Padded(f, decimals));
  }

  /** With at most `decimals` fractional digits the conversion is exact. */
  lemma ExactScaling(i: string, f: string, decimals: nat)
    requires |i| > 0 && |f| > 0 && AllDigits(i) && AllDigits(f) && |f| <= decimals
    ensures AllDigits(i + f)
    ensures DecimalStringToBigInt(i + "." + f, decimals) == Ok(DigitsValue(i + f) * Pow10(decimals - |f|))
  {
    DottedValue(i, f, decimals);
    PaddedShort(f, decimals);
    AllDigitsAppend(i, f);
    assert i + Padded(f, decimals) == (i + f) + Zeros(decimals - |f|);
    ShiftByZeros(i + f, decimals - |f|);
  }

  /** Extra fractional digits are dropped, never rounded: the result is the floor
      of the exact value divided by the surplus power of ten. */
  lemma Truncation(i: string, f: string, decimals: nat)
    requires |i| > 0 && |f| > 0 && AllDigits(i) && AllDigits(f) && |f| > decimals
    ensures AllDigits(i + f)
    ensures var r := DecimalStringToBigInt(i + "." + f, decimals);
            var scale := Pow10(|f| - decimals);
            r.Ok? && r.value * scale <= DigitsValue(i + f) < r.value * scale + scale
  {
    DottedValue(i, f, decimals);
    PaddedLong(f, decimals);
    var head := f[..decimals];
    SplitValue(i, f, decimals);
    FloorBound(DigitsValue(i + head), Pow10(|f| - decimals), DigitsValue(f[decimals..]));
  }

  /** The digits of `i + f` split at `decimals` places into the kept part and the
      dropped part, which is less than one unit of the kept part. */
  lemma SplitValue(i: string, f: string, decimals: nat)
    requires AllDigits(i) && AllDigits(f) && |f| > decimals
    ensures AllDigits(i + f) && AllDigits(i + f[..decimals]) && AllDigits(f[decimals..])
    ensures DigitsValue(i + f) == DigitsValue(i + f[..decimals]) * Pow10(|f| - decimals) + DigitsValue(f[decimals..])
    ensures DigitsValue(f[decimals..]) < Pow10(|f| - decimals)
  {
    var head, tail := f[..decimals], f[decimals..];
    assert AllDigits(head) && AllDigits(tail);
    AllDigitsAppend(i, f);
    AllDigitsAppend(i, head);
    assert i + f == (i + head) + tail;
    DigitsValueAppend(i + head, tail);
    DigitsValueBound(tail);
  }

  lemma FloorBound(a: int, scale: int, t: int)
    requires 0 <= t < scale
    ensures a * scale <= a * scale + t < a * scale + scale
  {
  }

  /** Round trip with the shortest decimal notation of a natural number. */
  lemma NatRoundTrip(n: nat, decimals: nat)
    ensures DecimalStringToBigInt(NatToString(n), decimals) == Ok(n * Pow10(decimals))
  {
    WholeScaled(NatToString(n), decimals);
  }

  /** A trailing dot, a leading dot, a sign, a second dot and the empty string are all refused. */
  lemma Rejections(decimals: nat)
    ensures DecimalStringToBigInt("1.", decimals) == Err(InvalidDecimal)
    ensures DecimalStringToBigInt(".5", decimals) == Err(InvalidDecimal)
    ensures DecimalStringToBigInt("-1", decimals) == Err(InvalidDecimal)
    ensures DecimalStringToBigInt("1.2.3", decimals) == Err(InvalidDecimal)
    ensures DecimalStringToBigInt("", decimals) == Err(InvalidDecimal)
  {
    assert FirstDot("1.") == Some(1);
    assert FirstDot(".5") == Some(0);
    assert !IsDigit("-1"[0]);
    assert FirstDot("1.2.3") == Some(1);
    assert !IsDigit("1.2.3"[2..][1]);
  }

  /** 0.001 BTC at 8 decimals is 100000 satoshis. */
  lemma SatoshiExample()
    ensures DecimalStringToBigInt("0.001", 8) == Ok(100000)
  {
    var i, f := "0", "001";
    assert AllDigits(i) && AllDigits(f);
    ExactScaling(i, f, 8);
    assert i + f == "0001";
    LeadingZerosOne();
    Pow10Five();
    assert DigitsValue(i + f) * Pow10(8 - |f|) == 100000;
    assert i + "." + f == "0.001";
  }

  lemma LeadingZerosOne()
    ensures AllDigits("0001") && DigitsValue("0001") == 1
  {
    ZerosValue(3);
    assert Zeros(3) == "000";
    DigitsValueSnoc("000", '1');
    assert "000" + ['1'] == "0001";
  }

  lemma Pow10Five()
    ensures Pow10(5) == 100000
  {
    assert Pow10(1) == 10 && Pow10(2) == 100 && Pow10(3) == 1000 && Pow10(4) == 10000;
  }
}
