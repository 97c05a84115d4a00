/** `BasicCodec` (src/google/codec/basic.ts): the key-value store's
    payload codec, which marks every stored value with a leading `!`. */
module Codec {
  import opened Wrappers
  import opened Strings

  /** `BasicCodec.PREFIX` */
  const Prefix: string := "!"

  /** `encode(data)`: the prefix followed by the data. */
  function Encode(data: string): (r: string)
    ensures |r| == |data| + 1 && StartsWith(r, Prefix)
  {
    Prefix + data
  }

  /** `decode(data)`: the empty string is an error, text without the
      prefix is malformed, otherwise the data after the one leading `!`. */
  function Decode(data: string): (r: Result<string>)
    ensures |data| == 0 ==> r == Err(EmptyData)
    ensures |data| > 0 && data[0] != '!' ==> r == Err(MalformedData)
    ensures r.Ok? <==> |data| > 0 && data[0] == '!'
    ensures r.Ok? ==> data == Prefix + r.value
  {
    if |data| == 0 then Err(EmptyData)
    else if !StartsWith(data, Prefix) then Err(MalformedData)
    else Ok(data[1..])
  }

  /** Decoding undoes encoding, for every string, the empty one included. */
  lemma {:induction false} DecodeEncode(data: string)
    ensures Decode(Encode(data)) == Ok(data)
  {
  }

  /** Encoding undoes decoding: the strings that decode are exactly the
      encoded ones. */
  lemma {:induction false} EncodeDecode(data: string)
    requires Decode(data).Ok?
    ensures Encode(Decode(data).value) == data
  {
  }

  /** Encoding is injective, so distinct payloads are stored as distinct
      strings. */
  lemma {:induction false} EncodeInjective(a: string, b: string)
    requires Encode(a) == Encode(b)
    ensures a == b
  {
    DecodeEncode(a);
    DecodeEncode(b);
  }

  /** An encoded value is never empty, so it is never read back as the
      key-value store's tombstone `''`. */
  lemma {:induction false} EncodedIsNeverEmpty(data: string)
    ensures Encode(data) != ""
  {
  }

  /** The cases of JSFreeDB's unit tests. */
  lemma {:induction false} CodecExamples()
    ensures Encode("") == "!" && Encode("test") == "!test"
    ensures Decode("!!!") == Ok("!!")
    ensures Decode("") == Err(EmptyData) && Decode("test") == Err(MalformedData)
  {
  }
}
