/**
 Nix base32 for sha256 digests: 52 characters for 256 bits, most significant digit first.
 The codec moves bits between 8-bit and 5-bit groups with shifts; it is proved to be
 positional notation of the digest read as a little-endian integer.
 */
module Base32 {
  import opened Bits

  type Byte = x: nat | x < 256

  const ALPHABET: string := "0123456789abcdfghijklmnpqrsvwxyz"
  const RADIX: nat := 32
  const TEXT_LEN: nat := 52
  const DIGEST_LEN: nat := 32
  const BYTE_BITS: nat := 8
  const DIGIT_BITS: nat := 5

  datatype DecodeError = WrongLength(len: nat) | InvalidCharacter(c: char)
  datatype Decoding = Ok(bytes: seq<Byte>) | Err(error: DecodeError)

  predicate IsBase32Byte(c: char) {
    '0' <= c <= '9' || 'a' <= c <= 'd' || 'f' <= c <= 'n' || 'p' <= c <= 's' || 'v' <= c <= 'z'
  }

  /** Index of `c` in the alphabet, or RADIX when it is not there. */
  function Position(c: char): nat {
    if '0' <= c <= '9' then c as nat - 48
    else if 'a' <= c <= 'd' then c as nat - 87
    else if 'f' <= c <= 'n' then c as nat - 88
    else if 'p' <= c <= 's' then c as nat - 89
    else if 'v' <= c <= 'z' then c as nat - 91
    else RADIX
  }

  /** `Position` is the search of the alphabet: the alphabet lists five runs of consecutive characters. */
  lemma PositionSearchesAlphabet(c: char, v: nat)
    requires v < RADIX
    ensures ALPHABET[v] == c <==> Position(c) == v
  {
    assert ALPHABET[v] as int ==
           v + if v < 10 then 48 else if v < 14 then 87 else if v < 23 then 88 else if v < 27 then 89 else 91;
  }

  /** The hand-written character test agrees with the alphabet the codec indexes. */
  lemma IsBase32ByteIffInAlphabet(c: char)
    ensures IsBase32Byte(c) <==> c in ALPHABET
  {
    if c in ALPHABET {
      var v :| 0 <= v < |ALPHABET| && ALPHABET[v] == c;
      PositionSearchesAlphabet(c, v);
    }
    if IsBase32Byte(c) {
      PositionSearchesAlphabet(c, Position(c));
    }
  }

  // ---- what the codec means ----

  predicate AllInAlphabet(text: string) {
    forall i :: 0 <= i < |text| ==> Position(text[i]) < RADIX
  }

  /** Digits of a text, least significant first. */
  function DigitsOf(text: string): seq<nat> {
    seq(|text|, n requires 0 <= n < |text| => Position(text[|text| - 1 - n]))
  }

  /** The integer with these base-256 (base-32) digits, least significant first. */
  function Base256(s: seq<nat>): nat {
    if s == [] then 0 else s[0] + 256 * Base256(s[1..])
  }

  function Base32(s: seq<nat>): nat {
    if s == [] then 0 else s[0] + 32 * Base32(s[1..])
  }

  /** Bit k of bytes, or of base-32 digits, laid end to end; zero past the end. */
  predicate ByteBit(bytes: seq<nat>, k: nat) {
    k < 8 * |bytes| && Bit(bytes[k / 8], k % 8)
  }

  predicate DigitBit(ds: seq<nat>, k: nat) {
    k < 5 * |ds| && Bit(ds[k / 5], k % 5)
  }

  predicate IsText(text: string) {
    |text| == TEXT_LEN && AllInAlphabet(text)
  }

  predicate IsDigest(bytes: seq<Byte>) {
    |bytes| == DIGEST_LEN
  }

  /** `text` has the bits of `bytes`, and zeros above bit 255. */
  ghost predicate Encodes(text: string, bytes: seq<Byte>) {
    IsText(text) && IsDigest(bytes) && forall k: nat :: DigitBit(DigitsOf(text), k) == ByteBit(bytes, k)
  }

  /** `bytes` has the low 256 of the 260 bits of `text`. */
  ghost predicate Decodes(text: string, bytes: seq<Byte>) {
    IsText(text) && IsDigest(bytes) && forall k: nat :: k < 256 ==> DigitBit(DigitsOf(text), k) == ByteBit(bytes, k)
  }

  // ---- encoding ----

  /** One output digit as the encoder computes it: two neighbouring bytes shifted together. */
  function WindowDigit(bytes: seq<Byte>, byte: nat, offset: nat): nat
    requires byte < |bytes| && offset < 8
  {
    var low := Shr(bytes[byte], offset);
    var value := if byte + 1 < |bytes| then Or(low, Shl(bytes[byte + 1], 8 - offset)) else low;
    Low(value, DIGIT_BITS)
  }

  lemma ByteFits(b: Byte)
    ensures Fits(b, BYTE_BITS)
  {
    assert Fits(b / 2 / 2 / 2 / 2 / 2 / 2 / 2 / 2, 0);
  }

  lemma FitsByte(x: nat)
    requires Fits(x, BYTE_BITS)
    ensures x < 256
  {
    assert Fits(x / 2 / 2 / 2 / 2 / 2 / 2 / 2 / 2, 0);
  }

  lemma DigitFits(v: nat)
    ensures Fits(v, DIGIT_BITS) <==> v < 32
  {
    assert Fits(v, DIGIT_BITS) <==> Fits(v / 2 / 2 / 2 / 2 / 2, 0);
  }

  lemma WindowBit(bytes: seq<Byte>, byte: nat, off: nat, j: nat)
    requires byte < |bytes| && off < 8 && j < 5
    ensures Bit(WindowDigit(bytes, byte, off), j) ==
            if off + j < 8 then Bit(bytes[byte], off + j)
            else byte + 1 < |bytes| && Bit(bytes[byte + 1], off + j - 8)
  {
    var low := Shr(bytes[byte], off);
    BitShr(bytes[byte], off, j);
    if off + j >= 8 {
      ByteFits(bytes[byte]);
      FitsNoHighBits(bytes[byte], BYTE_BITS, off + j);
    }
    if byte + 1 < |bytes| {
      var high := Shl(bytes[byte + 1], 8 - off);
      BitShl(bytes[byte + 1], 8 - off, j);
      BitOr(low, high, j);
      BitLow(Or(low, high), DIGIT_BITS, j);
    } else {
      BitLow(low, DIGIT_BITS, j);
    }
  }

  /** Digit n starts at bit 5n. */
  lemma WindowBits(bytes: seq<Byte>, n: nat, j: nat)
    requires IsDigest(bytes) && n < TEXT_LEN && j < 5
    ensures Bit(WindowDigit(bytes, 5 * n / 8, 5 * n % 8), j) == ByteBit(bytes, 5 * n + j)
  {
    var byte, off, k := 5 * n / 8, 5 * n % 8, 5 * n + j;
    WindowBit(bytes, byte, off, j);
    if off + j < 8 {
      assert k / 8 == byte && k % 8 == off + j;
    } else {
      assert k / 8 == byte + 1 && k % 8 == off + j - 8;
    }
  }

  lemma WindowInRange(bytes: seq<Byte>, byte: nat, off: nat)
    requires byte < |bytes| && off < 8
    ensures WindowDigit(bytes, byte, off) < 32
  {
    var low := Shr(bytes[byte], off);
    var value := if byte + 1 < |bytes| then Or(low, Shl(bytes[byte + 1], 8 - off)) else low;
    LowFits(value, DIGIT_BITS);
    DigitFits(Low(value, DIGIT_BITS));
  }

  method EncodeSha256(bytes: seq<Byte>) returns (out: string)
    requires IsDigest(bytes)
    ensures Encodes(out, bytes)
  {
    out := "";
    for pos := 0 to TEXT_LEN
      invariant |out| == pos
      invariant AllInAlphabet(out)
      invariant forall n: nat :: TEXT_LEN - pos <= n < TEXT_LEN ==>
                  Position(out[TEXT_LEN - 1 - n]) == WindowDigit(bytes, 5 * n / 8, 5 * n % 8)
    {
      var n := TEXT_LEN - 1 - pos;
      var bit := n * 5;
      var byte, offset := bit / 8, bit % 8;
      WindowInRange(bytes, byte, offset);
      var digit := WindowDigit(bytes, byte, offset);
      PositionSearchesAlphabet(ALPHABET[digit], digit);
      out := out + [ALPHABET[digit]];
    }
    WindowsEncode(out, bytes);
  }

  /** A text of the right window digits encodes the bytes. */
  lemma WindowsEncode(text: string, bytes: seq<Byte>)
    requires IsText(text) && IsDigest(bytes)
    requires forall n: nat :: n < TEXT_LEN ==>
               Position(text[TEXT_LEN - 1 - n]) == WindowDigit(bytes, 5 * n / 8, 5 * n % 8)
    ensures Encodes(text, bytes)
  {
    var ds := DigitsOf(text);
    forall k: nat ensures DigitBit(ds, k) == ByteBit(bytes, k) {
      if k < 260 {
        var n, j := k / 5, k % 5;
        assert ds[n] == WindowDigit(bytes, 5 * n / 8, 5 * n % 8);
        WindowBits(bytes, n, j);
      }
    }
  }

  // ---- decoding ----

  /** The two in-place updates that or digit `v` in at the given byte and bit offset. */
  function Placed(out: seq<nat>, v: nat, byte: nat, offset: nat): seq<nat>
    requires byte < |out| && offset < 8
  {
    var first := out[byte := Or(out[byte], Low(Shl(v, offset), BYTE_BITS))];
    if byte + 1 < |out| && offset > 3
    then first[byte + 1 := Or(out[byte + 1], Low(Shr(v, 8 - offset), BYTE_BITS))]
    else first
  }

  lemma OrByte(b: Byte, x: nat)
    ensures Or(b, Low(x, BYTE_BITS)) < 256
  {
    ByteFits(b);
    LowFits(x, BYTE_BITS);
    OrFits(b, Low(x, BYTE_BITS), BYTE_BITS);
    FitsByte(Or(b, Low(x, BYTE_BITS)));
  }

  lemma PlacedHere(b: nat, v: nat, off: nat, t: nat)
    requires off < 8 && v < 32 && t < 8
    ensures Bit(Or(b, Low(Shl(v, off), BYTE_BITS)), t) == (Bit(b, t) || (off <= t < off + 5 && Bit(v, t - off)))
  {
    BitOr(b, Low(Shl(v, off), BYTE_BITS), t);
    BitLow(Shl(v, off), BYTE_BITS, t);
    BitShl(v, off, t);
    if t >= off + 5 {
      DigitFits(v);
      FitsNoHighBits(v, DIGIT_BITS, t - off);
    }
  }

  lemma PlacedAbove(b: nat, v: nat, shift: nat, t: nat)
    requires v < 32 && t < 8
    ensures Bit(Or(b, Low(Shr(v, shift), BYTE_BITS)), t) == (Bit(b, t) || (t + shift < 5 && Bit(v, t + shift)))
  {
    var high := Shr(v, shift);
    BitOr(b, Low(high, BYTE_BITS), t);
    BitLow(high, BYTE_BITS, t);
    BitShr(v, shift, t);
    if t + shift >= 5 {
      DigitFits(v);
      FitsNoHighBits(v, DIGIT_BITS, t + shift);
    }
  }

  /** Where bit t of byte i lies in a digit placed at the given byte and offset. */
  function BitInDigit(byte: nat, off: nat, i: nat, t: nat): int {
    8 * (i - byte) + t - off
  }

  /** Bit t of byte i gains that bit of the digit, if the digit has it. */
  ghost predicate GainsBit(before: nat, after: nat, v: nat, j: int, t: nat) {
    Bit(after, t) == (Bit(before, t) || (0 <= j < 5 && Bit(v, j)))
  }

  lemma PlacedBitHere(out: seq<nat>, v: nat, byte: nat, off: nat, t: nat)
    requires byte < |out| && off < 8 && v < 32 && t < 8
    ensures GainsBit(out[byte], Placed(out, v, byte, off)[byte], v, BitInDigit(byte, off, byte, t), t)
  {
    PlacedEntry(out, v, byte, off, byte);
    PlacedHere(out[byte], v, off, t);
  }

  lemma PlacedBitAbove(out: seq<nat>, v: nat, byte: nat, off: nat, t: nat)
    requires byte + 1 < |out| && 3 < off < 8 && v < 32 && t < 8
    ensures GainsBit(out[byte + 1], Placed(out, v, byte, off)[byte + 1], v, BitInDigit(byte, off, byte + 1, t), t)
  {
    PlacedEntry(out, v, byte, off, byte + 1);
    PlacedAbove(out[byte + 1], v, 8 - off, t);
  }

  lemma PlacedBitElsewhere(out: seq<nat>, v: nat, byte: nat, off: nat, i: nat, t: nat)
    requires byte < |out| && off < 8 && i < |out| && t < 8 && i != byte && (i != byte + 1 || off <= 3)
    ensures GainsBit(out[i], Placed(out, v, byte, off)[i], v, BitInDigit(byte, off, i, t), t)
  {
    PlacedEntry(out, v, byte, off, i);
    OutsideDigit(byte, off, i, t);
  }

  lemma PlacedBit(out: seq<nat>, v: nat, byte: nat, off: nat, i: nat, t: nat)
    requires byte < |out| && off < 8 && v < 32 && i < |out| && t < 8
    ensures GainsBit(out[i], Placed(out, v, byte, off)[i], v, BitInDigit(byte, off, i, t), t)
  {
    if i == byte {
      PlacedBitHere(out, v, byte, off, t);
    } else if i == byte + 1 && off > 3 {
      PlacedBitAbove(out, v, byte, off, t);
    } else {
      PlacedBitElsewhere(out, v, byte, off, i, t);
    }
  }

  lemma OutsideDigit(byte: nat, off: nat, i: nat, t: nat)
    requires off < 8 && t < 8 && i != byte && (i != byte + 1 || off <= 3)
    ensures var j := BitInDigit(byte, off, i, t); j < 0 || j >= 5
  {
  }

  lemma PlacedEntry(out: seq<nat>, v: nat, byte: nat, off: nat, i: nat)
    requires byte < |out| && off < 8 && i < |out|
    ensures Placed(out, v, byte, off)[i] ==
            if i == byte then Or(out[i], Low(Shl(v, off), BYTE_BITS))
            else if i == byte + 1 && off > 3 then Or(out[i], Low(Shr(v, 8 - off), BYTE_BITS))
            else out[i]
  {
  }

  /** The buffer once digits `n` and up of `ds` have been or-ed in. */
  ghost predicate HoldsFrom(out: seq<nat>, ds: seq<nat>, n: nat) {
    && |out| == DIGEST_LEN && |ds| == TEXT_LEN
    && forall k: nat :: k < 256 ==> ByteBit(out, k) == (k >= 5 * n && DigitBit(ds, k))
  }

  lemma PlaceNext(out: seq<nat>, ds: seq<nat>, n: nat)
    requires HoldsFrom(out, ds, n + 1) && n < TEXT_LEN && ds[n] < 32
    ensures HoldsFrom(Placed(out, ds[n], 5 * n / 8, 5 * n % 8), ds, n)
  {
    var byte, off := 5 * n / 8, 5 * n % 8;
    var next := Placed(out, ds[n], byte, off);
    forall k: nat | k < 256 ensures ByteBit(next, k) == (k >= 5 * n && DigitBit(ds, k)) {
      PlacedBit(out, ds[n], byte, off, k / 8, k % 8);
      var j := k - 5 * n;
      assert 8 * (k / 8 - byte) + k % 8 - off == j;
      assert ByteBit(out, k) == (k >= 5 * n + 5 && DigitBit(ds, k));
      if 0 <= j < 5 { assert k / 5 == n && k % 5 == j; }
    }
  }

  ghost predicate FirstInvalid(text: string, i: nat) {
    i < |text| && AllInAlphabet(text[..i]) && Position(text[i]) == RADIX
  }

  method DecodeSha256(text: string) returns (r: Decoding)
    ensures r.Ok? <==> IsText(text)
    ensures r.Ok? ==> Decodes(text, r.bytes)
    ensures |text| != TEXT_LEN ==> r == Err(WrongLength(|text|))
    ensures |text| == TEXT_LEN && r.Err? ==>
              exists i: nat :: FirstInvalid(text, i) && r == Err(InvalidCharacter(text[i]))
  {
    if |text| != TEXT_LEN {
      return Err(WrongLength(|text|));
    }
    ghost var ds := DigitsOf(text);
    var out := new Byte[DIGEST_LEN](_ => 0);
    ZeroHolds(out[..], ds);
    for pos := 0 to TEXT_LEN
      invariant AllInAlphabet(text[..pos])
      invariant HoldsFrom(out[..], ds, TEXT_LEN - pos)
    {
      var value := Position(text[pos]);
      if value == RADIX {
        assert FirstInvalid(text, pos);
        return Err(InvalidCharacter(text[pos]));
      }
      var n := TEXT_LEN - 1 - pos;
      PlaceInArray(out, value, n, ds);
      assert text[..pos + 1] == text[..pos] + [text[pos]];
    }
    assert text[..TEXT_LEN] == text;
    r := Ok(out[..]);
  }

  /** The loop body's update of the output buffer. */
  method PlaceInArray(out: array<Byte>, value: nat, n: nat, ghost ds: seq<nat>)
    requires n < TEXT_LEN && HoldsFrom(out[..], ds, n + 1) && value == ds[n] < 32
    modifies out
    ensures out[..] == Placed(old(out[..]), value, 5 * n / 8, 5 * n % 8)
    ensures HoldsFrom(out[..], ds, n)
  {
    PlaceNext(out[..], ds, n);
    var bit := n * 5;
    var byte, offset := bit / 8, bit % 8;
    OrByte(out[byte], Shl(value, offset));
    out[byte] := Or(out[byte], Low(Shl(value, offset), BYTE_BITS));
    if byte + 1 < out.Length && offset > 3 {
      OrByte(out[byte + 1], Shr(value, 8 - offset));
      out[byte + 1] := Or(out[byte + 1], Low(Shr(value, 8 - offset), BYTE_BITS));
    }
    assert out[..] == Placed(old(out[..]), value, byte, offset);
  }

  lemma ZeroHolds(out: seq<nat>, ds: seq<nat>)
    requires |out| == DIGEST_LEN && |ds| == TEXT_LEN
    requires forall i :: 0 <= i < |out| ==> out[i] == 0
    ensures HoldsFrom(out, ds, TEXT_LEN)
  {
    forall k: nat | k < 256 ensures !ByteBit(out, k) { BitZero(k % 8); }
  }

  // ---- round trips ----

  lemma SameBytes(a: seq<Byte>, b: seq<Byte>)
    requires |a| == |b|
    requires forall k: nat :: k < 8 * |a| ==> ByteBit(a, k) == ByteBit(b, k)
    ensures a == b
  {
    forall i: nat | i < |a| ensures a[i] == b[i] {
      ByteFits(a[i]);
      ByteFits(b[i]);
      forall t: nat | t < 8 ensures Bit(a[i], t) == Bit(b[i], t) {
        assert ByteBit(a, 8 * i + t) == ByteBit(b, 8 * i + t);
      }
      SameBits(a[i], b[i], BYTE_BITS);
    }
  }

  lemma SameDigits(x: seq<nat>, y: seq<nat>, n: nat)
    requires n < |x| == |y| && x[n] < 32 && y[n] < 32
    requires forall k: nat :: DigitBit(x, k) == DigitBit(y, k)
    ensures x[n] == y[n]
  {
    DigitFits(x[n]);
    DigitFits(y[n]);
    forall t: nat | t < 5 ensures Bit(x[n], t) == Bit(y[n], t) {
      assert DigitBit(x, 5 * n + t) == DigitBit(y, 5 * n + t);
    }
    SameBits(x[n], y[n], DIGIT_BITS);
  }

  lemma SameText(a: string, b: string)
    requires IsText(a) && IsText(b)
    requires forall k: nat :: DigitBit(DigitsOf(a), k) == DigitBit(DigitsOf(b), k)
    ensures a == b
  {
    forall i: nat | i < |a| ensures a[i] == b[i] {
      SameDigits(DigitsOf(a), DigitsOf(b), |a| - 1 - i);
    }
  }

  /** Decoding inverts encoding for every digest. */
  lemma DecodeInvertsEncode(bytes: seq<Byte>, text: string, back: seq<Byte>)
    requires Encodes(text, bytes) && Decodes(text, back)
    ensures back == bytes
  {
    forall k: nat | k < 256 ensures ByteBit(back, k) == ByteBit(bytes, k) {
      assert DigitBit(DigitsOf(text), k) == ByteBit(bytes, k);
    }
    SameBytes(back, bytes);
  }

  /** The bits that do not fit a digest are zero exactly when the first character is '0' or '1'. */
  lemma TopBitsZeroIff(text: string)
    requires IsText(text)
    ensures (forall k: nat :: 256 <= k ==> !DigitBit(DigitsOf(text), k)) <==> text[0] in "01"
  {
    var ds := DigitsOf(text);
    var v := Position(text[0]);
    assert ds[51] == v;
    SmallIffNoHighBits(v);
    forall t: nat | t < 5 ensures DigitBit(ds, 255 + t) == Bit(v, t) {
      assert (255 + t) / 5 == 51 && (255 + t) % 5 == t;
    }
    forall k: nat | 256 <= k < 260 ensures DigitBit(ds, k) == DigitBit(ds, 255 + (k - 255)) {}
    if v > 1 {
      assert exists k :: 256 <= k < 260 && DigitBit(ds, k) by {
        assert DigitBit(ds, 255 + 1) || DigitBit(ds, 255 + 2) || DigitBit(ds, 255 + 3) || DigitBit(ds, 255 + 4);
      }
    }
  }

  lemma SmallIffNoHighBits(v: nat)
    requires v < 32
    ensures !Bit(v, 1) && !Bit(v, 2) && !Bit(v, 3) && !Bit(v, 4) <==> v <= 1
  {
    var high, k := v / 2, DIGIT_BITS - 1;
    forall t: nat ensures Bit(v, t + 1) == Bit(high, t) && !Bit(0, t) { BitZero(t); }
    assert Bit(v, 0 + 1) == Bit(high, 0) && Bit(v, 1 + 1) == Bit(high, 1);
    assert Bit(v, 2 + 1) == Bit(high, 2) && Bit(v, 3 + 1) == Bit(high, 3);
    if !Bit(high, 0) && !Bit(high, 1) && !Bit(high, 2) && !Bit(high, 3) {
      DigitFits(v);
      assert Fits(high, k);
      SameBits(high, 0, k);
    }
  }

  /** Encoding inverts decoding on an accepted text exactly when it starts with '0' or '1'. */
  lemma EncodeInvertsDecodeIff(text: string, bytes: seq<Byte>, again: string)
    requires Decodes(text, bytes) && Encodes(again, bytes)
    ensures again == text <==> text[0] in "01"
  {
    var ds, es := DigitsOf(text), DigitsOf(again);
    TopBitsZeroIff(text);
    forall k: nat ensures DigitBit(es, k) == ByteBit(bytes, k) {}
    if text[0] in "01" {
      forall k: nat ensures DigitBit(es, k) == DigitBit(ds, k) {
        if k < 256 { assert DigitBit(ds, k) == ByteBit(bytes, k); }
      }
      SameText(again, text);
    }
  }

  // ---- the integer behind the digits ----

  lemma {:induction false} Base256Value(s: seq<Byte>)
    ensures Base256(s) == BinVal(Flat(s, 8))
  {
    if s == [] {
    } else {
      Base256Value(s[1..]);
      ByteFits(s[0]);
      BinValGroup(s[0], 8, Flat(s[1..], 8));
      Shl8(BinVal(Flat(s[1..], 8)));
    }
  }

  lemma {:induction false} Base32Value(s: seq<nat>)
    requires forall i :: 0 <= i < |s| ==> s[i] < 32
    ensures Base32(s) == BinVal(Flat(s, 5))
  {
    if s == [] {
    } else {
      Base32Value(s[1..]);
      DigitFits(s[0]);
      BinValGroup(s[0], 5, Flat(s[1..], 5));
      Shl5(BinVal(Flat(s[1..], 5)));
    }
  }

  lemma ShlDoubles(x: nat, k: nat)
    ensures Shl(x, k + 1) == 2 * Shl(x, k)
  {
  }

  lemma Shl5(x: nat)
    ensures Shl(x, 5) == 32 * x
  {
    ShlDoubles(x, 0);
    ShlDoubles(x, 1);
    ShlDoubles(x, 2);
    ShlDoubles(x, 3);
    ShlDoubles(x, 4);
  }

  lemma Shl8(x: nat)
    ensures Shl(x, 8) == 256 * x
  {
    Shl5(x);
    ShlDoubles(x, 5);
    ShlDoubles(x, 6);
    ShlDoubles(x, 7);
  }

  lemma {:induction false} BinValPadded(s: seq<bool>, n: nat)
    ensures BinVal(s + seq(n, _ => false)) == BinVal(s)
  {
    var pad := seq(n, _ => false);
    if s != [] {
      assert (s + pad)[1..] == s[1..] + pad;
      BinValPadded(s[1..], n);
    } else if n > 0 {
      assert ([] + pad)[1..] == [] + seq(n - 1, _ => false);
      BinValPadded([], n - 1);
    }
  }

  lemma FlatTextVsBytes(text: string, bytes: seq<Byte>)
    requires IsText(text) && IsDigest(bytes)
    ensures Encodes(text, bytes) <==> Flat(DigitsOf(text), 5) == Flat(bytes, 8) + seq(4, _ => false)
  {
    var ds := DigitsOf(text);
    var a, b := Flat(ds, 5), Flat(bytes, 8) + seq(4, _ => false);
    Flat5At(ds, 0);
    Flat8At(bytes, 0);
    forall k: nat | k < 260 ensures a[k] == DigitBit(ds, k) && b[k] == ByteBit(bytes, k) {
      Flat5At(ds, k);
      if k < 256 { Flat8At(bytes, k); }
    }
    if a == b {
      forall k: nat ensures DigitBit(ds, k) == ByteBit(bytes, k) {
        if k < 260 { assert a[k] == b[k]; }
      }
    }
  }

  /**
   The encoding is exactly the 52 base-32 digits of the digest read as a little-endian
   256-bit integer, most significant digit first.
   */
  lemma EncodesIffSameInteger(text: string, bytes: seq<Byte>)
    requires IsText(text) && IsDigest(bytes)
    ensures Encodes(text, bytes) <==> Base32(DigitsOf(text)) == Base256(bytes)
  {
    var a, b := Flat(DigitsOf(text), 5), Flat(bytes, 8);
    Base256Value(bytes);
    Base32Value(DigitsOf(text));
    BinValPadded(b, 4);
    FlatTextVsBytes(text, bytes);
    Start5(TEXT_LEN);
    Start8(DIGEST_LEN);
    if BinVal(a) == BinVal(b) {
      BinValInjective(a, b + seq(4, _ => false));
    }
  }
}
