/** USB string descriptors (section 9.6.7 of the USB 2.0 specification) as the CP210x
    driver builds them: a 256-byte buffer whose byte 0 is the descriptor length
    `2 * len + 2`, byte 1 the descriptor type 3, then one UTF-16LE code unit per
    character with the high byte written as 0, then zeros. Every store goes into a
    `Uint8Array`, so a stored value is kept modulo 256. */
module Descriptor {
  import opened Wrappers
  import opened Errors

  /** A UTF-16 code unit, what `String.prototype.charCodeAt` returns. */
  type CodeUnit = c: int | 0 <= c < 0x1_0000

  /** The most code units a descriptor string may have: 2 * 126 + 2 = 254 fits the length byte. */
  const MaxLength := 126
  /** The size of the buffer the encoder allocates and returns whole. */
  const BufferSize := 256
  const StringDescriptorType := 0x03

  /** `c & 0x80` is non-zero: bit 7 of the code unit is set. */
  predicate Bit7Set(c: CodeUnit)
  {
    (c / 0x80) % 2 == 1
  }

  /** The arithmetic test above is the source's bitwise one on a 16-bit code unit. */
  lemma Bit7SetIsMask(c: CodeUnit)
    ensures Bit7Set(c) <==> (c as bv16) & 0x80 != 0
  {
  }

  /** The only character check the encoder makes: no code unit has bit 7 set. */
  predicate PassesAsciiCheck(s: seq<CodeUnit>)
  {
    forall i :: 0 <= i < |s| ==> !Bit7Set(s[i])
  }

  /** The bytes `out[o] = c; out[o + 1] = 0` leaves behind, code unit after code unit. */
  function Units(s: seq<CodeUnit>): (r: seq<int>)
    ensures |r| == 2 * |s|
  {
    if s == [] then [] else [s[0] % 0x100, 0] + Units(s[1..])
  }

  function Zeros(n: nat): seq<int>
  {
    seq(n, _ => 0)
  }

  /** Reference definition of `#encodeDescriptorString`: the whole buffer it returns, or the error it throws. */
  function Encode(s: seq<CodeUnit>): Result<seq<int>, Error>
  {
    if |s| > MaxLength then Failure(StringTooLong)
    else if !PassesAsciiCheck(s) then Failure(NonAscii)
    else Success([(2 * |s| + 2) % 0x100, StringDescriptorType] + Units(s) + Zeros(BufferSize - 2 - 2 * |s|))
  }

  /** Reads a string descriptor back: the UTF-16LE code units its length byte announces. */
  function Decode(d: seq<int>): Option<seq<int>>
  {
    if |d| < 2 || d[1] != StringDescriptorType || d[0] < 2 || d[0] % 2 != 0 || d[0] > |d| then None
    else
      var n := (d[0] - 2) / 2;
      Some(seq(n, i requires 0 <= i < n => d[2 + 2 * i] + 0x100 * d[3 + 2 * i]))
  }

  lemma {:induction false} UnitsAt(s: seq<CodeUnit>, i: nat)
    requires i < |s|
    ensures Units(s)[2 * i] == s[i] % 0x100 && Units(s)[2 * i + 1] == 0
    decreases i
  {
    if i > 0 {
      UnitsAt(s[1..], i - 1);
    }
  }

  /** The encoder accepts exactly the strings of at most 126 code units that pass the bit-7 test,
      and reports the length error first. */
  lemma EncodeAccepts(s: seq<CodeUnit>)
    ensures Encode(s).Success? <==> |s| <= MaxLength && PassesAsciiCheck(s)
    ensures |s| > MaxLength ==> Encode(s) == Failure(StringTooLong)
    ensures |s| <= MaxLength && !PassesAsciiCheck(s) ==> Encode(s) == Failure(NonAscii)
  {
  }

  /** Byte by byte, the buffer an accepted string encodes to. */
  lemma EncodeLayout(s: seq<CodeUnit>)
    requires Encode(s).Success?
    ensures |Encode(s).value| == BufferSize
    ensures Encode(s).value[0] == 2 * |s| + 2 <= 254
    ensures Encode(s).value[1] == StringDescriptorType
    ensures forall i :: 0 <= i < |s| ==> Encode(s).value[2 + 2 * i] == s[i] % 0x100 && Encode(s).value[3 + 2 * i] == 0
    ensures forall k :: 2 + 2 * |s| <= k < BufferSize ==> Encode(s).value[k] == 0
    ensures forall k :: 0 <= k < BufferSize ==> 0 <= Encode(s).value[k] < 0x100
  {
    var out := Encode(s).value;
    var head: seq<int> := [2 * |s| + 2, StringDescriptorType];
    assert out == head + Units(s) + Zeros(BufferSize - 2 - 2 * |s|);
    forall i | 0 <= i < |s|
      ensures out[2 + 2 * i] == s[i] % 0x100 && out[3 + 2 * i] == 0
    {
      UnitsAt(s, i);
    }
    forall k | 2 <= k < 2 + 2 * |s|
      ensures 0 <= out[k] < 0x100
    {
      UnitsAt(s, (k - 2) / 2);
    }
  }

  lemma AsciiPassesCheck(s: seq<CodeUnit>)
    requires forall i :: 0 <= i < |s| ==> s[i] < 0x80
    ensures PassesAsciiCheck(s)
  {
  }

  /** An ASCII string of at most 126 characters encodes, and decoding gives it back. */
  lemma DecodeEncode(s: seq<CodeUnit>)
    requires |s| <= MaxLength
    requires forall i :: 0 <= i < |s| ==> s[i] < 0x80
    ensures Encode(s).Success?
    ensures Decode(Encode(s).value) == Some(s)
  {
    AsciiPassesCheck(s);
    EncodeLayout(s);
    var out := Encode(s).value;
    var d := Decode(out);
    assert d.Some?;
    assert |d.value| == |s|;
    forall i | 0 <= i < |s|
      ensures d.value[i] == s[i]
    {
      assert d.value[i] == out[2 + 2 * i] + 0x100 * out[3 + 2 * i];
    }
    assert d.value == s;
  }

  /** Only the low byte of a code unit is kept: two strings that agree modulo 256 and both
      pass the bit-7 test encode to the same buffer. */
  lemma {:induction false} EncodeKeepsLowByte(s: seq<CodeUnit>, t: seq<CodeUnit>)
    requires |s| == |t|
    requires forall i :: 0 <= i < |s| ==> s[i] % 0x100 == t[i] % 0x100
    requires Encode(s).Success? && Encode(t).Success?
    ensures Encode(s) == Encode(t)
  {
    EncodeLayout(s);
    EncodeLayout(t);
    var a, b := Encode(s).value, Encode(t).value;
    forall k | 0 <= k < BufferSize
      ensures a[k] == b[k]
    {
      if 2 <= k < 2 + 2 * |s| {
        var i := (k - 2) / 2;
        assert k == 2 + 2 * i || k == 3 + 2 * i;
      }
    }
    assert a == b;
  }

  /** The bit-7 test lets U+0100 through, and it is written as a NUL byte: the encoder does not
      reject every code unit above 0x7F, and this string does not survive a round trip. */
  lemma WideCodeUnitBecomesNul()
    ensures Encode([0x100]).Success?
    ensures Encode([0x100]) == Encode([0])
    ensures Decode(Encode([0x100]).value) == Some([0])
  {
    EncodeKeepsLowByte([0x100], [0]);
    DecodeEncode([0]);
  }
}
