/** Each single item is read back from what the encoder wrote, and no shorter spelling exists. */
module ItemRoundTrip {
  import opened Bytes
  import opened Values
  import opened Encoder
  import opened Decoder
  import Utf8

  lemma ReadSliceOfConcat(s: bytes, t: bytes)
    ensures ReadSlice(|s|, s + t) == Got(s, t)
  {
  }

  lemma LengthRoundTrip(width: nat, n: nat, t: bytes)
    requires n < Pow256(width)
    ensures ReadLength(width, Be(width, n) + t) == Got(n, t)
  {
  }

  lemma SignedRoundTrip(width: nat, n: i64, t: bytes)
    requires width in {1, 2, 4, 8} && -(Pow256(width) / 2) <= n < Pow256(width) / 2
    ensures ReadSigned(width, BeSigned(width, n) + t) == Got(n, t)
  {
    ReadSliceOfConcat(BeSigned(width, n), t);
    AsSignedBeSigned(width, n);
  }

  lemma IntRoundTrip(n: i64, t: bytes)
    ensures ReadInt(IntBytes(n) + t) == Got(n, t)
    ensures KindOf(IntBytes(n)[0]) == IntKind
  {
    Pow256Values();
    hide Pow256, Be, BeSigned, UnBe, ReadSigned, AsSigned;
    var s := IntBytes(n) + t;
    if -16 <= n <= 127 {
      assert s[1..] == t;
    } else {
      var width := |IntBytes(n)| - 1;
      SignedRoundTrip(width, n, t);
      assert s[1..] == BeSigned(width, n) + t;
    }
  }

  /** No byte string that reads as `n` is shorter than the encoder's. */
  lemma IntBytesShortest(s: bytes)
    requires ReadInt(s).Got?
    ensures |IntBytes(ReadInt(s).value)| <= |s| - |ReadInt(s).rest|
  {
  }

  lemma HeaderRoundTrip(f: Family, len: nat, t: bytes)
    requires IsFamily(f) && len <= MAX_COLLECTION_LEN
    ensures ReadHeader(f, Header(f, len) + t) == Got(len, t)
    ensures InFamily(f, Header(f, len)[0])
  {
    Pow256Values();
    var s := Header(f, len) + t;
    if len <= 15 {
      assert s[1..] == t;
    } else {
      var width := |Header(f, len)| - 1;
      LengthRoundTrip(width, len, t);
      assert s[1..] == Be(width, len) + t;
    }
  }

  lemma HeaderShortest(f: Family, s: bytes)
    requires IsFamily(f) && ReadHeader(f, s).Got?
    ensures |Header(f, ReadHeader(f, s).value)| <= |s| - |ReadHeader(f, s).rest|
  {
  }

  lemma StringKindOf(text: bytes)
    requires |text| <= MAX_COLLECTION_LEN
    ensures StringBytes(text) != [] && KindOf(StringBytes(text)[0]) == StringKind
  {
  }

  lemma StringRoundTrip(text: bytes, t: bytes)
    requires Utf8.Valid(text) && |text| <= MAX_COLLECTION_LEN
    ensures ReadString(StringBytes(text) + t) == Got(text, t)
  {
    hide Header, ReadHeader, Utf8.Valid;
    var s := Header(STRING, |text|) + (text + t);
    assert StringBytes(text) + t == s;
    assert ReadHeader(STRING, s) == Got(|text|, text + t) by {
      HeaderRoundTrip(STRING, |text|, text + t);
    }
    ReadSliceOfConcat(text, t);
  }

  lemma BinaryHeaderRoundTrip(len: nat, t: bytes)
    requires len <= MAX_COLLECTION_LEN
    ensures ReadBinaryHeader(BinaryHeader(len) + t) == Got(len, t)
    ensures KindOf(BinaryHeader(len)[0]) == BinaryKind
  {
    Pow256Values();
    var s := BinaryHeader(len) + t;
    var width := |BinaryHeader(len)| - 1;
    LengthRoundTrip(width, len, t);
    assert s[1..] == Be(width, len) + t;
  }

  lemma BinaryRoundTrip(data: bytes, t: bytes)
    requires |data| <= MAX_COLLECTION_LEN
    ensures ReadBinary(BinaryBytes(data) + t) == Got(data, t)
    ensures BinaryBytes(data) != [] && KindOf(BinaryBytes(data)[0]) == BinaryKind
  {
    hide BinaryHeader, ReadBinaryHeader;
    assert BinaryBytes(data) + t == BinaryHeader(|data|) + (data + t);
    BinaryHeaderRoundTrip(|data|, data + t);
    ReadSliceOfConcat(data, t);
  }

  lemma FloatRoundTrip(bits: Double, t: bytes)
    ensures ReadScalar(FloatKind, FloatBytes(bits) + t) == Got(Float(bits), t)
    ensures KindOf(FloatBytes(bits)[0]) == FloatKind
  {
    Pow256Values();
    assert (FloatBytes(bits) + t)[1..] == Be(8, bits) + t;
    ReadSliceOfConcat(Be(8, bits), t);
    UnBeBe(8, bits);
  }

  lemma StructHeaderRoundTrip(tag: byte, fields: nat, t: bytes)
    requires fields <= MAX_STRUCT_FIELDS && tag <= MAX_STRUCT_TAG
    ensures ReadStructHeader(StructHeader(tag, fields) + t) == Got((tag, fields), t)
    ensures KindOf(StructHeader(tag, fields)[0]) == StructKind
  {
  }
}
