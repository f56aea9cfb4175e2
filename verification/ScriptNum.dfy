/** Script numbers: little-endian bytes with a sign bit (model/script/scriptnum.go). */
module ScriptNum {
  import opened Wrappers
  import opened Basics

  const DEFAULT_MAX_NUM_SIZE: nat := 4

  /* Magnitudes */

  function Digits(n: nat): (b: Bytes)
    ensures n > 0 ==> b != [] && b[|b| - 1] > 0
  {
    if n == 0 then [] else [(n % 256) as Byte] + Digits(n / 256)
  }

  lemma {:induction false} MagnitudeOfDigits(n: nat)
    ensures Magnitude(Digits(n)) == n
  {
    if n > 0 {
      MagnitudeOfDigits(n / 256);
      assert Digits(n)[1..] == Digits(n / 256);
    }
  }

  lemma {:induction false} MagnitudeSnoc(b: Bytes, x: Byte)
    ensures Magnitude(b + [x]) == Magnitude(b) + x * Pow256(|b|)
  {
    if b == [] {
      assert b + [x] == [x];
    } else {
      MagnitudeSnoc(b[1..], x);
      assert (b + [x])[1..] == b[1..] + [x];
      Shifted(x, Pow256(|b| - 1));
    }
  }

  lemma {:induction false} Shifted(x: nat, w: nat)
    ensures 256 * (x * w) == x * (256 * w)
  {
  }

  /* Signed values */

  /** The number a byte string stands for: the top bit of the last byte is the sign. */
  function Value(b: Bytes): int {
    if b == [] then 0
    else
      var last := b[|b| - 1];
      if last >= 0x80 then -(Magnitude(b[..|b| - 1] + [last - 0x80]) as int) else Magnitude(b)
  }

  /** The shortest byte string for a number. */
  function Encode(v: int): Bytes {
    var d := Digits(if v < 0 then -v else v);
    if d == [] then []
    else
      var last := d[|d| - 1];
      if last >= 0x80 then d + [if v < 0 then 0x80 else 0]
      else if v < 0 then d[..|d| - 1] + [last + 0x80]
      else d
  }

  predicate IsMinimallyEncoded(data: Bytes, maxSize: nat) {
    |data| <= maxSize &&
    (data != [] && data[|data| - 1] % 0x80 == 0 ==> |data| > 1 && data[|data| - 2] >= 0x80)
  }

  lemma {:induction false} MagnitudeTopZero(b: Bytes)
    ensures Magnitude(b + [0]) == Magnitude(b)
  {
    MagnitudeSnoc(b, 0);
  }

  /** Decoding undoes encoding, and encodings are minimal. */
  lemma {:induction false} EncodeRoundTrip(v: int)
    ensures Value(Encode(v)) == v && forall n :: |Encode(v)| <= n ==> IsMinimallyEncoded(Encode(v), n)
  {
    var a := if v < 0 then -v else v;
    var d := Digits(a);
    MagnitudeOfDigits(a);
    assert Magnitude([]) == 0 && (a == 0 ==> d == []);
    hide Magnitude, Digits;
    if d != [] {
      var last, e := d[|d| - 1], Encode(v);
      assert d == d[..|d| - 1] + [last];
      if last >= 0x80 {
        MagnitudeTopZero(d);
        assert e[..|e| - 1] == d;
      } else if v < 0 {
        assert e[..|e| - 1] == d[..|d| - 1];
      }
    }
  }

  lemma {:induction false} DigitsOfMagnitude(b: Bytes)
    requires b == [] || b[|b| - 1] > 0
    ensures Digits(Magnitude(b)) == b && (b != [] ==> Magnitude(b) > 0)
  {
    if b != [] {
      var rest := b[1..];
      if rest != [] {
        assert rest[|rest| - 1] == b[|b| - 1];
      }
      DigitsOfMagnitude(rest);
      assert Magnitude(b) % 256 == b[0] && Magnitude(b) / 256 == Magnitude(rest);
      assert b == [b[0]] + rest;
    }
  }

  lemma {:induction false} EncodeWithSignByte(rest: Bytes, sign: Byte)
    requires rest != [] && rest[|rest| - 1] >= 0x80 && sign % 0x80 == 0
    ensures Encode(Value(rest + [sign])) == rest + [sign]
  {
    hide Magnitude, Digits;
    assert (rest + [sign])[..|rest|] == rest;
    MagnitudeTopZero(rest);
    DigitsOfMagnitude(rest);
  }

  lemma {:induction false} EncodeWithSignBit(rest: Bytes, last: Byte)
    requires last % 0x80 != 0
    ensures Encode(Value(rest + [last])) == rest + [last]
  {
    hide Magnitude, Digits;
    assert (rest + [last])[..|rest|] == rest;
    var low := last % 0x80;
    DigitsOfMagnitude(rest + [low]);
    assert (rest + [low])[..|rest|] == rest;
  }

  /** A minimal byte string is the encoding of its number, so a number has only one. */
  lemma {:induction false} MinimalIsEncoding(b: Bytes)
    requires IsMinimallyEncoded(b, |b|)
    ensures Encode(Value(b)) == b
  {
    if b != [] {
      var rest, last := b[..|b| - 1], b[|b| - 1];
      assert b == rest + [last];
      hide Value, Encode;
      if last % 0x80 == 0 {
        EncodeWithSignByte(rest, last);
      } else {
        EncodeWithSignBit(rest, last);
      }
    }
  }

  /** GetScriptNum: too long or, when asked for, not minimal is an error. */
  function Num(b: Bytes, requireMinimal: bool, maxSize: nat): Option<int> {
    if |b| > maxSize || (requireMinimal && !IsMinimallyEncoded(b, maxSize)) then None else Some(Value(b))
  }

  method GetScriptNum(vch: Bytes, requireMinimal: bool, maxSize: nat) returns (r: Option<int>)
    ensures r == Num(vch, requireMinimal, maxSize)
  {
    if |vch| > maxSize {
      return None;
    }
    if requireMinimal {
      if !IsMinimallyEncoded(vch, maxSize) {
        return None;
      }
    }
    if |vch| == 0 {
      return Some(0);
    }
    var v, weight := ReadMagnitude(vch);
    var last := vch[|vch| - 1];
    if last >= 0x80 {
      SignBit(vch);
      return Some(-(v - 0x80 * weight));
    }
    r := Some(v);
  }

  /** The magnitude with its sign bit still in, and the weight of the last byte. */
  method ReadMagnitude(vch: Bytes) returns (v: int, weight: nat)
    requires vch != []
    ensures v == Magnitude(vch) && weight == Pow256(|vch| - 1)
  {
    v, weight := vch[0], 1;
    assert vch[..1] == [vch[0]];
    for i := 1 to |vch|
      invariant v == Magnitude(vch[..i]) && weight == Pow256(i - 1)
    {
      MagnitudeSnoc(vch[..i], vch[i]);
      assert vch[..i + 1] == vch[..i] + [vch[i]];
      weight := 256 * weight;
      v := v + vch[i] * weight;
    }
    assert vch[..|vch|] == vch;
  }

  /** Clearing the sign bit takes its weight away. */
  lemma {:induction false} SignBit(b: Bytes)
    requires b != [] && b[|b| - 1] >= 0x80
    ensures Magnitude(b[..|b| - 1] + [b[|b| - 1] - 0x80]) == Magnitude(b) - 0x80 * Pow256(|b| - 1)
  {
    hide Magnitude, Pow256;
    var rest, last := b[..|b| - 1], b[|b| - 1];
    MagnitudeSnoc(rest, last);
    MagnitudeSnoc(rest, last - 0x80);
    assert b == rest + [last];
    Distribute(last - 0x80, 0x80, Pow256(|b| - 1));
  }

  lemma {:induction false} Distribute(x: int, y: int, w: int)
    ensures (x + y) * w == x * w + y * w
  {
  }

  method Serialize(value: int) returns (bytes: Bytes)
    ensures bytes == Encode(value)
  {
    if value == 0 {
      return [];
    }
    var negative := value < 0;
    bytes := WriteMagnitude(if negative then -value else value);
    hide Digits;
    var last := bytes[|bytes| - 1];
    if last >= 0x80 {
      bytes := bytes + [if negative then 0x80 else 0];
    } else if negative {
      bytes := bytes[..|bytes| - 1] + [last + 0x80];
    }
  }

  method WriteMagnitude(n: nat) returns (bytes: Bytes)
    ensures bytes == Digits(n)
  {
    bytes := [];
    var left: nat := n;
    assert Digits(0) == [];
    hide Digits;
    while left > 0
      invariant bytes + Digits(left) == Digits(n)
      decreases left
    {
      DigitsStep(left);
      bytes := bytes + [(left % 256) as Byte];
      left := left / 256;
    }
  }

  lemma {:induction false} DigitsStep(n: nat)
    requires n > 0
    ensures Digits(n) == [(n % 256) as Byte] + Digits(n / 256)
  {
  }

  /* Trimming */

  /** The bytes without the zeros at the end, keeping the sign. */
  function Trimmed(data: Bytes): (r: Bytes)
    ensures |r| <= |data|
  {
    if data == [] || data[|data| - 1] % 0x80 != 0 then data
    else Signed(data[..|data| - 1], data[|data| - 1])
  }

  /** The shortest form of the magnitude in body with the sign of the byte 0x00 or 0x80. */
  function Signed(body: Bytes, sign: Byte): (r: Bytes)
    requires sign % 0x80 == 0
    ensures |r| <= |body| + 1
  {
    if body == [] then []
    else
      var top := body[|body| - 1];
      if top == 0 then Signed(body[..|body| - 1], sign)
      else if top >= 0x80 then body + [sign]
      else body[..|body| - 1] + [top + sign]
  }

  lemma {:induction false} ValueSnoc(body: Bytes, x: Byte)
    ensures Value(body + [x]) == if x >= 0x80 then -(Magnitude(body + [x - 0x80]) as int) else Magnitude(body + [x])
  {
    assert (body + [x])[..|body|] == body;
  }

  /** With the sign in a byte of its own, or in the spare bit of the last one. */
  lemma {:induction false} SignMoves(rest: Bytes, top: Byte, sign: Byte)
    requires sign % 0x80 == 0 && top < 0x80
    ensures Value(rest + [top] + [sign]) == Value(rest + [top + sign])
  {
    hide Value, Magnitude;
    ValueSnoc(rest + [top], sign);
    MagnitudeTopZero(rest + [top]);
    ValueSnoc(rest, top + sign);
  }

  lemma {:induction false} SignAlone(sign: Byte)
    requires sign % 0x80 == 0
    ensures Value([] + [sign]) == 0 == Value([])
  {
    ValueSnoc([], sign);
    MagnitudeTopZero([]);
  }

  lemma {:induction false} SignedValue(body: Bytes, sign: Byte)
    requires sign % 0x80 == 0
    ensures Value(Signed(body, sign)) == Value(body + [sign])
  {
    hide Value;
    if body == [] {
      SignAlone(sign);
    } else {
      var rest, top := body[..|body| - 1], body[|body| - 1];
      assert body == rest + [top];
      if top < 0x80 {
        SignMoves(rest, top, sign);
        if top == 0 {
          SignedValue(rest, sign);
        }
      }
    }
  }

  lemma {:induction false} SignedIsMinimal(body: Bytes, sign: Byte)
    requires sign % 0x80 == 0
    ensures IsMinimallyEncoded(Signed(body, sign), |Signed(body, sign)|)
  {
    if body != [] && body[|body| - 1] == 0 {
      SignedIsMinimal(body[..|body| - 1], sign);
    }
  }

  /** Trimming keeps the number and makes it minimal. */
  lemma {:induction false} TrimmedMeaning(data: Bytes)
    ensures Value(Trimmed(data)) == Value(data) && IsMinimallyEncoded(Trimmed(data), |Trimmed(data)|)
  {
    if !(data == [] || data[|data| - 1] % 0x80 != 0) {
      SignedValue(data[..|data| - 1], data[|data| - 1]);
      SignedIsMinimal(data[..|data| - 1], data[|data| - 1]);
      assert data == data[..|data| - 1] + [data[|data| - 1]];
    }
  }

  method MinimallyEncode(data: Bytes) returns (r: Bytes)
    ensures r == Trimmed(data)
  {
    if |data| == 0 {
      return data;
    }
    var last := data[|data| - 1];
    if last % 0x80 != 0 {
      return data;
    }
    if |data| == 1 {
      return [];
    }
    if data[|data| - 2] >= 0x80 {
      assert data == data[..|data| - 1] + [last];
      return data;
    }
    var i := |data| - 1;
    while i > 0
      invariant 0 <= i <= |data| - 1 && Signed(data[..|data| - 1], last) == Signed(data[..i], last)
    {
      assert data[..i][..i - 1] == data[..i - 1];
      if data[i - 1] != 0 {
        if data[i - 1] >= 0x80 {
          return data[..i] + [last];
        }
        return data[..i - 1] + [data[i - 1] + last];
      }
      i := i - 1;
    }
    r := [];
  }

  /* Truth */

  function Truth(b: Bytes): bool {
    exists i :: 0 <= i < |b| && b[i] != 0 && !(i == |b| - 1 && b[i] == 0x80)
  }

  /** BytesToBool: every byte string but the zeros, of either sign, is true. */
  method BytesToBool(b: Bytes) returns (r: bool)
    ensures r == Truth(b)
  {
    for i := 0 to |b|
      invariant forall j :: 0 <= j < i ==> b[j] == 0
    {
      if b[i] != 0 {
        if i == |b| - 1 && b[i] == 0x80 {
          return false;
        }
        return true;
      }
    }
    r := false;
  }

  lemma {:induction false} MagnitudeZero(b: Bytes)
    ensures Magnitude(b) == 0 <==> forall i :: 0 <= i < |b| ==> b[i] == 0
  {
    if b != [] {
      MagnitudeZero(b[1..]);
      assert forall i :: 0 < i < |b| ==> b[i] == b[1..][i - 1];
    }
  }

  /** Truth is being a number other than zero. */
  lemma {:induction false} TruthIsNonZero(b: Bytes)
    ensures Truth(b) <==> Value(b) != 0
  {
    if b != [] {
      var rest, last := b[..|b| - 1], b[|b| - 1];
      MagnitudeZero(b);
      if last >= 0x80 {
        MagnitudeZero(rest + [last - 0x80]);
        assert forall i :: 0 <= i < |rest| ==> (rest + [last - 0x80])[i] == b[i];
        assert (rest + [last - 0x80])[|rest|] == last - 0x80;
      }
    }
  }
}
