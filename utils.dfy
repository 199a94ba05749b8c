/** The string and number helpers of `utils/utils.go`. Go strings are byte
    strings, so every string here is a `Str` (a sequence of bytes); a Go
    `[]string` that a helper writes into is an `array<Str>`. */
module Utils {
  import opened Common
  import opened Strconv

  // ---------------------------------------------------------------------
  // Remove

  /** Reference meaning of `Remove`: the sequence with its first occurrence
      of x deleted, or unchanged when x does not occur. */
  function RemoveFirst(s: seq<Str>, x: Str): seq<Str>
  {
    if s == [] then []
    else if s[0] == x then s[1..]
    else [s[0]] + RemoveFirst(s[1..], x)
  }

  /** The index of the first occurrence of x in s. */
  function IndexOf(s: seq<Str>, x: Str): (k: nat)
    requires x in s
    ensures k < |s| && s[k] == x
    ensures forall j :: 0 <= j < k ==> s[j] != x
  {
    if s[0] == x then 0 else 1 + IndexOf(s[1..], x)
  }

  /** When x occurs, exactly the element at its first index is dropped:
      one element fewer, the others in their original order. */
  lemma {:induction false} RemoveFirstPresent(s: seq<Str>, x: Str)
    requires x in s
    ensures RemoveFirst(s, x) == s[..IndexOf(s, x)] + s[IndexOf(s, x) + 1..]
    ensures |RemoveFirst(s, x)| == |s| - 1
  {
    if s[0] != x {
      RemoveFirstPresent(s[1..], x);
      assert s[1..][..IndexOf(s[1..], x)] == s[1..IndexOf(s, x)];
      assert s[1..][IndexOf(s[1..], x) + 1..] == s[IndexOf(s, x) + 1..];
    }
  }

  /** When x does not occur, nothing is removed. */
  lemma {:induction false} RemoveFirstAbsent(s: seq<Str>, x: Str)
    requires x !in s
    ensures RemoveFirst(s, x) == s
  {
    if s != [] {
      RemoveFirstAbsent(s[1..], x);
    }
  }

  /** Removing the first occurrence takes one copy of x out of the multiset
      of elements and touches nothing else. */
  lemma {:induction false} RemoveFirstMultiset(s: seq<Str>, x: Str)
    ensures multiset(RemoveFirst(s, x)) == multiset(s) - multiset{x}
  {
    if s != [] {
      assert s == [s[0]] + s[1..];
      if s[0] != x {
        RemoveFirstMultiset(s[1..], x);
      }
    }
  }

  /** `append(slice[:i], slice[i+1:]...)`: the elements after index i move
      one place left inside the same backing array; the last slot keeps its value. */
  method ShiftLeft(slice: array<Str>, i: nat)
    requires i < slice.Length
    modifies slice
    ensures slice[..slice.Length - 1] == old(slice[..i]) + old(slice[i + 1..])
    ensures slice[slice.Length - 1] == old(slice[slice.Length - 1])
  {
    ghost var s := slice[..];
    var j := i;
    while j < slice.Length - 1
      invariant i <= j <= slice.Length - 1
      invariant forall t :: 0 <= t < i ==> slice[t] == s[t]
      invariant forall t :: i <= t < j ==> slice[t] == s[t + 1]
      invariant forall t :: j <= t < slice.Length ==> slice[t] == s[t]
    {
      slice[j] := slice[j + 1];
      j := j + 1;
    }
    assert |slice[..slice.Length - 1]| == |s[..i] + s[i + 1..]|;
    assert forall t :: 0 <= t < slice.Length - 1 ==> slice[t] == (s[..i] + s[i + 1..])[t];
  }

  /** `Remove(slice, element)`: scan for the first element equal to
      `element`; if found, shift the tail one place left inside the same
      backing array and return a slice one shorter, else return the slice as
      it is. The result is the prefix `slice[..n]` of the caller's array; the
      slots from n on keep their old contents, so the caller's own view still
      ends with the old last element. */
  method Remove(slice: array<Str>, element: Str) returns (n: nat)
    modifies slice
    ensures n <= slice.Length
    ensures slice[..n] == RemoveFirst(old(slice[..]), element)
    ensures slice[n..] == old(slice[..])[n..]
  {
    ghost var s := slice[..];
    var i := 0;
    while i < slice.Length && slice[i] != element
      invariant 0 <= i <= slice.Length
      invariant forall j :: 0 <= j < i ==> slice[j] != element
    {
      i := i + 1;
    }
    if i == slice.Length {
      RemoveFirstAbsent(s, element);
      assert slice[..] == s;
      return slice.Length;
    }
    assert element in s && IndexOf(s, element) == i;
    RemoveFirstPresent(s, element);
    ShiftLeft(slice, i);
    n := slice.Length - 1;
    assert slice[n..] == [slice[n]];
  }

  // ---------------------------------------------------------------------
  // ParsePhoneNumber / PhoneNumber

  const Dash: Byte := '-' as int

  /** `strings.Split(s, sep)` for a one-byte separator: the maximal
      separator-free pieces between separators; "" splits into [""]. */
  function Split(s: Str, sep: Byte): (parts: seq<Str>)
    ensures |parts| >= 1
  {
    if s == [] then [[]]
    else
      var rest := Split(s[1..], sep);
      if s[0] == sep then [[]] + rest
      else [[s[0]] + rest[0]] + rest[1..]
  }

  /** `strings.Join(parts, sep)` for a one-byte separator. */
  function Join(parts: seq<Str>, sep: Byte): Str
  {
    if parts == [] then []
    else if |parts| == 1 then parts[0]
    else parts[0] + [sep] + Join(parts[1..], sep)
  }

  /** Joining the pieces of a split gives back the original string. */
  lemma {:induction false} JoinSplit(s: Str, sep: Byte)
    ensures Join(Split(s, sep), sep) == s
  {
    if s != [] {
      var rest := Split(s[1..], sep);
      JoinSplit(s[1..], sep);
      if s[0] != sep {
        if |rest| > 1 {
          assert rest == [rest[0]] + rest[1..];
          assert Join(rest, sep) == rest[0] + [sep] + Join(rest[1..], sep);
        }
      }
    }
  }

  /** Splitting a join of separator-free pieces gives back the pieces. */
  lemma {:induction false} SplitJoin(parts: seq<Str>, sep: Byte)
    requires |parts| >= 1
    requires forall k :: 0 <= k < |parts| ==> sep !in parts[k]
    ensures Split(Join(parts, sep), sep) == parts
  {
    if |parts| == 1 {
      SplitFree(parts[0], sep);
    } else {
      SplitJoin(parts[1..], sep);
      SplitPrefix(parts[0], Join(parts[1..], sep), sep);
    }
  }

  /** A separator-free string is its own single piece. */
  lemma {:induction false} SplitFree(s: Str, sep: Byte)
    requires sep !in s
    ensures Split(s, sep) == [s]
  {
    if s != [] {
      SplitFree(s[1..], sep);
      assert [s[0]] + s[1..] == s;
    }
  }

  /** A separator-free piece followed by a separator splits off as the first piece. */
  lemma {:induction false} SplitPrefix(p: Str, t: Str, sep: Byte)
    requires sep !in p
    ensures Split(p + [sep] + t, sep) == [p] + Split(t, sep)
  {
    var s := p + [sep] + t;
    if p == [] {
      assert s[0] == sep && s[1..] == t;
    } else {
      assert s[0] == p[0] && s[1..] == p[1..] + [sep] + t;
      SplitPrefix(p[1..], t, sep);
      assert [p[0]] + p[1..] == p;
    }
  }

  /** The number of pieces is one more than the number of separators. */
  lemma {:induction false} SplitCount(s: Str, sep: Byte)
    ensures |Split(s, sep)| == multiset(s)[sep] + 1
  {
    if s != [] {
      assert s == [s[0]] + s[1..];
      SplitCount(s[1..], sep);
    }
  }

  /** `PhoneNumber(countryCode, countryCallingCode, mobileNumber)`. */
  function PhoneNumber(countryCode: Str, countryCallingCode: Str, mobileNumber: Str): (r: Str)
    ensures r == Join([countryCode, countryCallingCode, mobileNumber], Dash)
  {
    var parts := [countryCode, countryCallingCode, mobileNumber];
    assert parts[1..] == [countryCallingCode, mobileNumber];
    assert parts[1..][1..] == [mobileNumber];
    assert Join(parts[1..], Dash) == countryCallingCode + [Dash] + mobileNumber;
    assert Join(parts, Dash) == countryCode + [Dash] + (countryCallingCode + [Dash] + mobileNumber);
    countryCode + [Dash] + countryCallingCode + [Dash] + mobileNumber
  }

  /** `ParsePhoneNumber(phoneNumber)`: the three dash-separated parts when the
      number splits into exactly three, and ("", "", phoneNumber) otherwise. */
  function ParsePhoneNumber(phoneNumber: Str): (r: (Str, Str, Str))
    ensures multiset(phoneNumber)[Dash] == 2 ==>
      PhoneNumber(r.0, r.1, r.2) == phoneNumber &&
      Dash !in r.0 && Dash !in r.1 && Dash !in r.2
    ensures multiset(phoneNumber)[Dash] != 2 ==> r == ([], [], phoneNumber)
  {
    var parts := Split(phoneNumber, Dash);
    SplitCount(phoneNumber, Dash);
    if |parts| == 3 then
      JoinSplit(phoneNumber, Dash);
      SplitPiecesFree(phoneNumber, Dash);
      assert parts[1..] == [parts[1], parts[2]];
      (parts[0], parts[1], parts[2])
    else ([], [], phoneNumber)
  }

  /** No piece of a split contains the separator. */
  lemma {:induction false} SplitPiecesFree(s: Str, sep: Byte)
    ensures forall k :: 0 <= k < |Split(s, sep)| ==> sep !in Split(s, sep)[k]
  {
    if s != [] {
      SplitPiecesFree(s[1..], sep);
    }
  }

  /** Formatting three dash-free parts and parsing the result gives them back. */
  lemma {:induction false} PhoneNumberRoundTrip(countryCode: Str, countryCallingCode: Str, mobileNumber: Str)
    requires Dash !in countryCode && Dash !in countryCallingCode && Dash !in mobileNumber
    ensures ParsePhoneNumber(PhoneNumber(countryCode, countryCallingCode, mobileNumber))
         == (countryCode, countryCallingCode, mobileNumber)
  {
    var parts := [countryCode, countryCallingCode, mobileNumber];
    SplitJoin(parts, Dash);
  }

  // ---------------------------------------------------------------------
  // CapitalizeFirstChar

  predicate IsAsciiLower(b: Byte) { 'a' as int <= b <= 'z' as int }
  predicate IsAsciiUpper(b: Byte) { 'A' as int <= b <= 'Z' as int }

  function AsciiUpper(b: Byte): Byte { if IsAsciiLower(b) then b - 32 else b }
  function AsciiLower(b: Byte): Byte { if IsAsciiUpper(b) then b + 32 else b }

  /** `unicode.ToUpper` on the code points U+0000..U+00FF: ASCII letters,
      the Latin-1 lower-case letters U+00E0..U+00FE (except U+00F7), and the
      two Latin-1 letters whose capitals lie outside Latin-1: U+00B5 (micro
      sign, to U+039C) and U+00FF (to U+0178). */
  function UpperLatin1(r: Byte): (u: int)
    ensures 0 <= u < 0x800
    ensures r < 0x80 ==> u == AsciiUpper(r)
    ensures r >= 0x80 ==> u >= 0x80
  {
    if r < 0x80 then AsciiUpper(r)
    else if r == 0xB5 then 0x39C
    else if r == 0xFF then 0x178
    else if 0xE0 <= r <= 0xFE && r != 0xF7 then r - 0x20
    else r
  }

  /** UTF-8 encoding of a code point below U+0800 (one or two bytes). */
  function EncodeRune(r: int): (e: Str)
    requires 0 <= r < 0x800
    ensures |e| == (if r < 0x80 then 1 else 2)
  {
    if r < 0x80 then [r] else [0xC0 + r / 64, 0x80 + r % 64]
  }

  /** `CapitalizeFirstChar(input)`: `strings.ToUpper(string(input[0])) + input[1:]`.
      `string(input[0])` converts the BYTE to the rune of that value, so a
      lead byte of 0x80 or more becomes two bytes of UTF-8 before upper-casing. */
  function CapitalizeFirstChar(input: Str): (r: Str)
    ensures input == [] ==> r == []
    ensures input != [] && input[0] < 0x80 ==>
      |r| == |input| && r[0] == AsciiUpper(input[0]) && r[1..] == input[1..]
    ensures input != [] && input[0] >= 0x80 ==>
      |r| == |input| + 1 && r[..2] == EncodeRune(UpperLatin1(input[0])) && r[2..] == input[1..]
  {
    if |input| == 0 then input
    else EncodeRune(UpperLatin1(input[0])) + input[1..]
  }

  /** For an ASCII lead byte, capitalizing twice is capitalizing once, and
      the result never starts with a lower-case ASCII letter. */
  lemma CapitalizeAsciiIdempotent(input: Str)
    requires input != [] && input[0] < 0x80
    ensures CapitalizeFirstChar(CapitalizeFirstChar(input)) == CapitalizeFirstChar(input)
    ensures !IsAsciiLower(CapitalizeFirstChar(input)[0])
  {
    var r := CapitalizeFirstChar(input);
    assert r == [r[0]] + r[1..];
  }

  /** A UTF-8 "é" (C3 A9) comes back as C3 83 A9: the lead byte was read as
      the rune U+00C3 ("Ã"), which is already upper case. */
  lemma CapitalizeSplitsUtf8()
    ensures CapitalizeFirstChar([0xC3, 0xA9]) == [0xC3, 0x83, 0xA9]
  {
  }

  // ---------------------------------------------------------------------
  // TrimLower / TrimLowerArr

  /** The ASCII white space `strings.TrimSpace` removes. */
  predicate IsSpace(b: Byte) { b == 9 || b == 10 || b == 11 || b == 12 || b == 13 || b == 32 }

  /** Drops the leading white space: the result is a suffix of s, what was
      dropped is all white space, and the result does not start with any. */
  function TrimLeft(s: Str): (r: Str)
    ensures |r| <= |s| && r == s[|s| - |r|..]
    ensures forall i :: 0 <= i < |s| - |r| ==> IsSpace(s[i])
    ensures r != [] ==> !IsSpace(r[0])
  {
    if s != [] && IsSpace(s[0]) then
      var r := TrimLeft(s[1..]);
      assert s[1..][|s| - 1 - |r|..] == s[|s| - |r|..];
      assert forall i :: 1 <= i < |s| ==> s[i] == s[1..][i - 1];
      r
    else s
  }

  /** Drops the trailing white space: the result is a prefix of s, what was
      dropped is all white space, and the result does not end with any. */
  function TrimRight(s: Str): (r: Str)
    ensures |r| <= |s| && r == s[..|r|]
    ensures forall i :: |r| <= i < |s| ==> IsSpace(s[i])
    ensures r != [] ==> !IsSpace(r[|r| - 1])
  {
    if s != [] && IsSpace(s[|s| - 1]) then
      var r := TrimRight(s[..|s| - 1]);
      assert s[..|s| - 1][..|r|] == s[..|r|];
      assert forall i :: 0 <= i < |s| - 1 ==> s[i] == s[..|s| - 1][i];
      r
    else s
  }

  /** `strings.TrimSpace`: the result is no longer than s, neither starts nor
      ends with white space, and a string that already does neither is
      returned unchanged. */
  function TrimSpace(s: Str): (r: Str)
    ensures |r| <= |s|
    ensures r != [] ==> !IsSpace(r[0]) && !IsSpace(r[|r| - 1])
    ensures (s == [] || (!IsSpace(s[0]) && !IsSpace(s[|s| - 1]))) ==> r == s
  {
    var l := TrimLeft(s);
    var t := TrimRight(l);
    assert t != [] ==> t[0] == l[0];
    t
  }

  /** `strings.ToLower`: every byte is lower-cased on its own, and a string
      with no upper-case letter is returned unchanged. */
  function ToLower(s: Str): (r: Str)
    ensures |r| == |s| && forall i :: 0 <= i < |s| ==> r[i] == AsciiLower(s[i])
    ensures forall i :: 0 <= i < |s| ==> !IsAsciiUpper(r[i]) && IsSpace(r[i]) == IsSpace(s[i])
    ensures (forall i :: 0 <= i < |s| ==> !IsAsciiUpper(s[i])) ==> r == s
  {
    seq(|s|, i requires 0 <= i < |s| => AsciiLower(s[i]))
  }

  /** `TrimLower(input)`: `strings.ToLower(strings.TrimSpace(input))`. The
      result is no longer than the input, neither starts nor ends with white
      space and holds no upper-case letter. */
  function TrimLower(input: Str): (r: Str)
    ensures |r| <= |input|
    ensures r != [] ==> !IsSpace(r[0]) && !IsSpace(r[|r| - 1])
    ensures forall i :: 0 <= i < |r| ==> !IsAsciiUpper(r[i])
  {
    var t := TrimSpace(input);
    var r := ToLower(t);
    assert r != [] ==> !IsSpace(t[0]) && !IsSpace(t[|t| - 1]);
    assert r != [] ==> IsSpace(r[0]) == IsSpace(t[0]) && IsSpace(r[|r| - 1]) == IsSpace(t[|t| - 1]);
    r
  }

  /** TrimSpace cuts only white space, and only from the two ends: its result
      is the slice input[a..b], with nothing but white space outside it. */
  lemma TrimSpaceSlice(input: Str) returns (a: nat, b: nat)
    ensures a <= b <= |input| && TrimSpace(input) == input[a..b]
    ensures forall i :: 0 <= i < a ==> IsSpace(input[i])
    ensures forall i :: b <= i < |input| ==> IsSpace(input[i])
  {
    var l := TrimLeft(input);
    var t := TrimRight(l);
    a := |input| - |l|;
    b := a + |t|;
    assert l == input[a..];
    assert t == l[..|t|];
    assert t == input[a..b];
    forall i | b <= i < |input|
      ensures IsSpace(input[i])
    {
      assert input[i] == l[i - a];
    }
  }

  /** TrimLower is idempotent. */
  lemma TrimLowerIdempotent(input: Str)
    ensures TrimLower(TrimLower(input)) == TrimLower(input)
  {
    var r := TrimLower(input);
    assert TrimSpace(r) == r;
  }

  /** `TrimLowerArr(input)`: replaces every element by its TrimLower in place
      and returns the same slice. */
  method TrimLowerArr(input: array<Str>) returns (r: array<Str>)
    modifies input
    ensures r == input
    ensures forall i :: 0 <= i < input.Length ==> input[i] == TrimLower(old(input[i]))
  {
    for i := 0 to input.Length
      invariant forall j :: 0 <= j < i ==> input[j] == TrimLower(old(input[j]))
      invariant forall j :: i <= j < input.Length ==> input[j] == old(input[j])
    {
      input[i] := TrimLower(input[i]);
    }
    r := input;
  }

  // ---------------------------------------------------------------------
  // ParseStringToUint64

  /** The `customError.ParseIntError` returned for an unparsable string. */
  datatype CustomError = ParseIntError(input: Str, cause: NumError)

  /** `ParseStringToUint64(ctx, str)`: the decimal value of str when it is a
      non-empty string of digits whose value fits in 64 bits, else 0 and an error. */
  function ParseStringToUint64(str: Str): (r: (Uint64, Option<CustomError>))
    ensures r.1.None? <==> IsUint64Decimal(str)
    ensures r.1.None? ==> r.0 == DecimalValue(str)
    ensures r.1.Some? ==> r.0 == 0 && r.1.value.input == str
  {
    var p := ParseUint(str);
    if p.err.Some? then (0, Some(ParseIntError(str, p.err.value)))
    else (p.value, None)
  }
}
