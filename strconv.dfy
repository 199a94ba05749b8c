/** Go's `strconv.ParseUint(s, 10, 64)`, which both `utils.ParseStringToUint64`
    and `domain.getUserIDUint64` call, modelled as the digit loop the standard
    library runs: digits are consumed left to right, the first non-digit is a
    syntax error, and a value that would leave 64 bits is a range error. */
module Strconv {
  import opened Common

  datatype NumError = ErrSyntax | ErrRange

  /** Go's `(uint64, error)` result pair. */
  datatype ParseResult = ParseResult(value: Uint64, err: Option<NumError>)

  predicate IsDigit(b: Byte) { '0' as int <= b <= '9' as int }

  predicate AllDigits(s: Str) { forall i :: 0 <= i < |s| ==> IsDigit(s[i]) }

  /** Reference meaning of a string of decimal digits, most significant first. */
  function DecimalValue(s: Str): nat
    requires AllDigits(s)
  {
    if s == [] then 0
    else DecimalValue(s[..|s| - 1]) * 10 + (s[|s| - 1] - '0' as int)
  }

  /** The strings `ParseUint(s, 10, 64)` accepts. */
  predicate IsUint64Decimal(s: Str) {
    |s| > 0 && AllDigits(s) && DecimalValue(s) <= MaxUint64
  }

  /** n * 10 overflows 64 bits exactly when n >= Cutoff. */
  const Cutoff: int := MaxUint64 / 10 + 1

  /** The loop body of ParseUint, from index i with accumulated value n.
      Go also checks `n1 < n` to catch a wrapped uint64 addition; on
      unbounded integers that case is the `n1 > MaxUint64` test. On a
      range error Go returns the maximal value, on a syntax error zero. */
  function Scan(s: Str, i: nat, n: Uint64): (r: ParseResult)
    requires i <= |s|
    ensures r.err.None? ==> n <= r.value
    ensures r.err == Some(ErrSyntax) ==> r.value == 0
    ensures r.err == Some(ErrRange) ==> r.value == MaxUint64
    decreases |s| - i
  {
    if i == |s| then ParseResult(n, None)
    else if !IsDigit(s[i]) then ParseResult(0, Some(ErrSyntax))
    else if n >= Cutoff then ParseResult(MaxUint64, Some(ErrRange))
    else
      var n1 := n * 10 + (s[i] - '0' as int);
      if n1 > MaxUint64 then ParseResult(MaxUint64, Some(ErrRange))
      else Scan(s, i + 1, n1)
  }

  /** `strconv.ParseUint(s, 10, 64)`: it succeeds exactly on the non-empty
      all-digit strings whose value fits in 64 bits, and then returns that value. */
  function ParseUint(s: Str): (r: ParseResult)
    ensures r.err.None? <==> IsUint64Decimal(s)
    ensures r.err.None? ==> r.value == DecimalValue(s)
    ensures r.err == Some(ErrSyntax) ==> r.value == 0
    ensures r.err == Some(ErrRange) ==> r.value == MaxUint64
  {
    if s == [] then ParseResult(0, Some(ErrSyntax))
    else
      ScanCorrect(s, 0);
      Scan(s, 0, 0)
  }

  /** Extending a digit string never makes its value smaller. */
  lemma {:induction false} DecimalValueMonotone(s: Str, k: nat)
    requires AllDigits(s) && k <= |s|
    ensures DecimalValue(s[..k]) <= DecimalValue(s)
    decreases |s| - k
  {
    if k < |s| {
      var t := s[..|s| - 1];
      assert s[..k] == t[..k];
      DecimalValueMonotone(t, k);
    } else {
      assert s[..k] == s;
    }
  }

  /** Scanning from a prefix that is already parsed agrees with the reference. */
  lemma {:induction false} ScanCorrect(s: Str, i: nat)
    requires i <= |s| && AllDigits(s[..i]) && DecimalValue(s[..i]) <= MaxUint64
    ensures Scan(s, i, DecimalValue(s[..i])).err.None? <==> AllDigits(s) && DecimalValue(s) <= MaxUint64
    ensures Scan(s, i, DecimalValue(s[..i])).err.None? ==> Scan(s, i, DecimalValue(s[..i])).value == DecimalValue(s)
    ensures Scan(s, i, DecimalValue(s[..i])).err == Some(ErrSyntax) ==> Scan(s, i, DecimalValue(s[..i])).value == 0
    ensures Scan(s, i, DecimalValue(s[..i])).err == Some(ErrRange) ==> Scan(s, i, DecimalValue(s[..i])).value == MaxUint64
    decreases |s| - i
  {
    var n := DecimalValue(s[..i]);
    if i == |s| {
      assert s[..i] == s;
    } else if !IsDigit(s[i]) {
      assert !AllDigits(s);
    } else {
      var p := s[..i + 1];
      assert p[..i] == s[..i];
      assert AllDigits(p);
      assert DecimalValue(p) == n * 10 + (s[i] - '0' as int);
      if n >= Cutoff || DecimalValue(p) > MaxUint64 {
        if AllDigits(s) {
          DecimalValueMonotone(s, i + 1);
        }
      } else {
        ScanCorrect(s, i + 1);
      }
    }
  }
  /** Over digits only, the loop never reports a syntax error. */
  lemma {:induction false} ScanDigitsNoSyntax(s: Str, i: nat, n: Uint64)
    requires i <= |s| && forall j :: i <= j < |s| ==> IsDigit(s[j])
    ensures Scan(s, i, n).err != Some(ErrSyntax)
    decreases |s| - i
  {
    if i < |s| && n < Cutoff && n * 10 + (s[i] - '0' as int) <= MaxUint64 {
      ScanDigitsNoSyntax(s, i + 1, n * 10 + (s[i] - '0' as int));
    }
  }

  /** A non-empty digit string too large for 64 bits is a range error, with the
      maximal value, and never a syntax error. */
  lemma ParseUintOverflow(s: Str)
    requires s != [] && AllDigits(s) && DecimalValue(s) > MaxUint64
    ensures ParseUint(s).err == Some(ErrRange) && ParseUint(s).value == MaxUint64
  {
    ScanDigitsNoSyntax(s, 0, 0);
    var e := ParseUint(s).err;
    assert e.Some? && e.value != ErrSyntax;
  }
}
