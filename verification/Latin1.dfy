/** Undoing a byte-by-byte UTF-8 encoding. */
module Latin1 {
  import opened Common

  const RUNE_ERROR := 0xfffd

  predicate Continuation(b: byte) {
    0x80 <= b <= 0xbf
  }

  /** A decoded code point and the number of bytes it took. */
  datatype Rune = Rune(code: nat, size: nat)

  /** The second byte a three-byte form may have after its first. */
  predicate SecondOfThree(first: byte, second: byte) {
    if first == 0xe0 then 0xa0 <= second <= 0xbf
    else if first == 0xed then 0x80 <= second <= 0x9f
    else Continuation(second)
  }

  predicate SecondOfFour(first: byte, second: byte) {
    if first == 0xf0 then 0x90 <= second <= 0xbf
    else if first == 0xf4 then 0x80 <= second <= 0x8f
    else Continuation(second)
  }

  /** utf8.DecodeRune on non-empty input: section 3 of RFC 3629, with one error byte consumed at a time. */
  function DecodeRune(s: Bytes): (r: Rune)
    requires s != []
    ensures 1 <= r.size <= |s|
  {
    var b := s[0];
    if b < 0x80 then Rune(b as nat, 1)
    else if 0xc2 <= b <= 0xdf && |s| >= 2 && Continuation(s[1]) then
      Rune((b as nat - 0xc0) * 64 + (s[1] as nat - 0x80), 2)
    else if 0xe0 <= b <= 0xef && |s| >= 3 && SecondOfThree(b, s[1]) && Continuation(s[2]) then
      Rune((b as nat - 0xe0) * 4096 + (s[1] as nat - 0x80) * 64 + (s[2] as nat - 0x80), 3)
    else if 0xf0 <= b <= 0xf4 && |s| >= 4 && SecondOfFour(b, s[1]) && Continuation(s[2]) && Continuation(s[3]) then
      var high := (b as nat - 0xf0) * 262144 + (s[1] as nat - 0x80) * 4096;
      Rune(high + (s[2] as nat - 0x80) * 64 + (s[3] as nat - 0x80), 4)
    else Rune(RUNE_ERROR, 1)
  }

  /** UTF-8 of one code point up to 0xff. */
  function EncodeByte(c: byte): Bytes {
    if c < 0x80 then [c] else [0xc0 + c / 64, 0x80 + c % 64]
  }

  function Encode(bs: Bytes): Bytes {
    if bs == [] then [] else EncodeByte(bs[0]) + Encode(bs[1..])
  }

  /** The bytes whose encoding s is, if there are any. */
  function Decode(s: Bytes): Option<Bytes>
    decreases |s|
  {
    if s == [] then Some([])
    else
      var r := DecodeRune(s);
      if r.code > 0xff || r.size > 2 then None
      else
        var rest := Decode(s[r.size..]);
        if rest.None? then None else Some([r.code as byte] + rest.value)
  }

  method ConvertFromUTF8(bytes: Bytes) returns (out: Bytes, ok: bool)
    ensures ok == Decode(bytes).Some?
    ensures out == if ok then Decode(bytes).value else []
  {
    out := [];
    var left := bytes;
    assert Decode(left).Some? ==> [] + Decode(left).value == Decode(left).value;
    while |left| > 0
      invariant Decode(bytes) == if Decode(left).None? then None else Some(out + Decode(left).value)
      decreases |left|
    {
      var r := DecodeRune(left);
      if r.code > 0xff || r.size > 2 {
        return [], false;
      }
      ghost var rest := Decode(left[r.size..]);
      assert rest.Some? ==> out + ([r.code as byte] + rest.value) == out + [r.code as byte] + rest.value;
      out := out + [r.code as byte];
      left := left[r.size..];
    }
    assert out + [] == out;
    ok := true;
  }

  lemma RuneOfByte(c: byte, rest: Bytes)
    ensures DecodeRune(EncodeByte(c) + rest) == Rune(c as nat, |EncodeByte(c)|)
    ensures (EncodeByte(c) + rest)[|EncodeByte(c)|..] == rest
  {
    var s := EncodeByte(c) + rest;
    if c >= 0x80 {
      assert s[0] == 0xc0 + c / 64 && s[1] == 0x80 + c % 64;
      assert 0xc2 <= s[0] <= 0xc3 && Continuation(s[1]);
    }
  }

  /** Conversion undoes the encoding. */
  lemma {:induction false} DecodeEncode(bs: Bytes)
    ensures Decode(Encode(bs)) == Some(bs)
  {
    if bs != [] {
      RuneOfByte(bs[0], Encode(bs[1..]));
      DecodeEncode(bs[1..]);
      assert bs == [bs[0]] + bs[1..];
    }
  }

  lemma EncodeCons(c: byte, bs: Bytes)
    ensures Encode([c] + bs) == EncodeByte(c) + Encode(bs)
  {
    assert ([c] + bs)[1..] == bs;
  }

  lemma ByteOfRune(s: Bytes)
    requires s != [] && DecodeRune(s).code <= 0xff && DecodeRune(s).size <= 2
    ensures EncodeByte(DecodeRune(s).code as byte) == s[..DecodeRune(s).size]
  {
  }

  /** Only the encoding of the result converts to it. */
  lemma {:induction false} EncodeDecode(s: Bytes)
    ensures Decode(s).Some? ==> Encode(Decode(s).value) == s
    decreases |s|
  {
    if s != [] && Decode(s).Some? {
      var r := DecodeRune(s);
      EncodeDecode(s[r.size..]);
      ByteOfRune(s);
      EncodeCons(r.code as byte, Decode(s[r.size..]).value);
      assert s == s[..r.size] + s[r.size..];
    }
  }

  /** Conversion succeeds exactly on encodings of bytes. */
  lemma SucceedsExactlyOnEncodings(s: Bytes)
    ensures Decode(s).Some? <==> exists bs :: Encode(bs) == s
  {
    EncodeDecode(s);
    forall bs | Encode(bs) == s
      ensures Decode(s).Some?
    {
      DecodeEncode(bs);
    }
  }
}
