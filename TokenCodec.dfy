/**
  The page token codec (`make_token` / `decode_token`): a PageToken is
  written as JSON, the text is encoded to bytes, the bytes are Base64
  encoded and the result is prefixed with `b:`. Decoding drops the first
  two characters whatever they are and reverses the other steps; each step
  that can fail yields its own DecodeError.
*/
module TokenCodec {
  import opened Wrappers
  import opened Models
  import Base64
  import Json

  /** Why a token could not be decoded: the exception `decode_token` raises. */
  datatype DecodeError =
    | BadBase64                  // binascii.Error
    | NotAscii                   // bytes outside the ASCII range
    | BadJson                    // json.JSONDecodeError
    | MissingField(name: string) // pydantic ValidationError

  const Prefix: string := "b:"

  /** `str.encode("utf-8")` on ASCII text: one byte per character. */
  function Utf8Encode(s: string): (bs: seq<Base64.byte>)
    requires Json.IsAscii(s)
    ensures |bs| == |s|
    ensures forall i :: 0 <= i < |s| ==> bs[i] as int == s[i] as int
  {
    seq(|s|, i requires 0 <= i < |s| => s[i] as int as Base64.byte)
  }

  /** `bytes.decode("utf-8")`, accepting the ASCII range only. */
  function Utf8Decode(bs: seq<Base64.byte>): (r: Option<string>)
    ensures r.Some? <==> forall i :: 0 <= i < |bs| ==> bs[i] < 128
    ensures r.Some? ==> |r.value| == |bs| && forall i :: 0 <= i < |bs| ==> r.value[i] as int == bs[i] as int
  {
    if forall i :: 0 <= i < |bs| ==> bs[i] < 128 then
      Some(seq(|bs|, i requires 0 <= i < |bs| && bs[i] < 128 => bs[i] as int as char))
    else
      None
  }

  lemma Utf8RoundTrip(s: string)
    requires Json.IsAscii(s)
    ensures Utf8Decode(Utf8Encode(s)) == Some(s)
  {
    var bs := Utf8Encode(s);
    assert forall i :: 0 <= i < |bs| ==> bs[i] < 128;
    assert Utf8Decode(bs).value == s;
  }

  lemma FieldKeysPlain(t: PageToken)
    ensures forall i :: 0 <= i < |Fields(t)| ==> Json.IsAscii(Fields(t)[i].0) && Json.IsPlainKey(Fields(t)[i].0)
  {
  }

  /**
    `json.dumps(page_token.dict())`: the six fields as JSON, in declaration
    order. The field names are plain keys, so the text is ASCII and its
    UTF-8 encoding is one byte per character.
  */
  function Payload(t: PageToken): (text: string)
    ensures Json.IsAscii(text)
  {
    FieldKeysPlain(t);
    Json.ObjectTextAscii(Fields(t));
    Json.ObjectText(Fields(t))
  }

  /**
    `make_token`: `b:` followed by Base64 text, characters of the alphabet
    or `=`, 4 * ceiling(n / 3) of them for an n-byte payload.
  */
  function MakeToken(t: PageToken): (token: string)
    ensures |token| >= 2 && token[..2] == Prefix
    ensures forall i :: 2 <= i < |token| ==> Base64.IsEncodingChar(token[i])
    ensures |token| == 2 + Base64.EncodedLength(|Payload(t)|)
  {
    TokenText(Payload(t));
    Prefix + Base64.Encode(Utf8Encode(Payload(t)))
  }

  /** The prefix followed by the Base64 text of n ASCII characters: 2 + 4 * ceiling(n / 3) characters. */
  lemma TokenText(text: string)
    requires Json.IsAscii(text)
    ensures |Prefix + Base64.Encode(Utf8Encode(text))| == 2 + Base64.EncodedLength(|text|)
    ensures (Prefix + Base64.Encode(Utf8Encode(text)))[..2] == Prefix
    ensures forall i :: 2 <= i < |Prefix + Base64.Encode(Utf8Encode(text))| ==>
              Base64.IsEncodingChar((Prefix + Base64.Encode(Utf8Encode(text)))[i])
  {
    var encoded := Base64.Encode(Utf8Encode(text));
    Base64.EncodeShape(Utf8Encode(text));
    assert forall i :: 2 <= i < |Prefix + encoded| ==> (Prefix + encoded)[i] == encoded[i - 2];
  }

  /** `token[2:]`. */
  function DropPrefix(token: string): (rest: string)
    ensures |token| > 2 ==> rest == token[2..]
    ensures |token| <= 2 ==> rest == []
  {
    if |token| <= 2 then [] else token[2..]
  }

  /** `decode_token`. */
  function DecodeToken(token: string): (r: Result<PageToken, DecodeError>)
    ensures r.Failure? && r.error.MissingField? ==> IsFieldName(r.error.name)
  {
    var bytes :- Base64.Decode(DropPrefix(token)).ToResult(BadBase64);
    var text :- Utf8Decode(bytes).ToResult(NotAscii);
    var members :- Json.ParseObject(text).ToResult(BadJson);
    match FromFields(members)
    case Success(t) => Success(t)
    case Failure(name) => Failure(MissingField(name))
  }

  /** Every token `make_token` mints decodes to the record it was made from. */
  lemma RoundTrip(t: PageToken)
    ensures DecodeToken(MakeToken(t)) == Success(t)
  {
    var text := Payload(t);
    var bytes := Utf8Encode(text);
    var token := MakeToken(t);
    assert DropPrefix(token) == Base64.Encode(bytes);
    Base64.DecodeEncode(bytes);
    Utf8RoundTrip(text);
    FieldKeysPlain(t);
    Json.ParseObjectText(Fields(t));
    FromFieldsOfFields(t);
  }

  /** The first two characters are not checked: any two in place of `b:` decode alike. */
  lemma PrefixNotChecked(t: PageToken, c0: char, c1: char)
    ensures DecodeToken([c0, c1] + MakeToken(t)[2..]) == Success(t)
  {
    var token := MakeToken(t);
    assert DropPrefix([c0, c1] + token[2..]) == DropPrefix(token);
    RoundTrip(t);
  }

  /** An empty token is not valid Base64 text for a JSON object: it fails as bad JSON. */
  lemma EmptyTokenRejected()
    ensures DecodeToken("") == Failure(BadJson)
  {
    assert Json.SkipWs("") == "";
  }

  /** A payload that lacks one of the six fields is rejected, naming a missing field. */
  lemma MissingFieldRejected(ms: seq<Json.Member>, key: string)
    requires forall i :: 0 <= i < |ms| ==> Json.IsAscii(ms[i].0) && Json.IsPlainKey(ms[i].0)
    requires IsFieldName(key) && Lookup(ms, key).None?
    ensures var text := Json.ObjectText(ms);
            Json.IsAscii(text) &&
            var r := DecodeToken(Prefix + Base64.Encode(Utf8Encode(text)));
            r.Failure? && r.error.MissingField? && Lookup(ms, r.error.name).None?
  {
    var text := Json.ObjectText(ms);
    Json.ObjectTextAscii(ms);
    var bytes := Utf8Encode(text);
    assert DropPrefix(Prefix + Base64.Encode(bytes)) == Base64.Encode(bytes);
    Base64.DecodeEncode(bytes);
    Utf8RoundTrip(text);
    Json.ParseObjectText(ms);
    assert !HasAllFields(ms);
  }
}
