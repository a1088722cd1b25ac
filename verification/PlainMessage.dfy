/** Message bodies on the wire: the plain form, which every member can read, and the encrypted one.
    JSON, UTF-8 and the cipher are parameters. */
module PlainMessage {
  import opened Common
  import opened MessageStore
  import opened Decoded
  import opened Base64Url

  const PLAIN_MESSAGE_ALGORITHM := "PLAIN-JSON-V1"

  datatype Codec = Codec(
    stringify: Body -> string,
    parse: string -> Option<Body>,               // nothing if it throws
    utf8: string -> seq<Byte>,
    text: seq<Byte> -> string,
    encrypt: (string, Body) -> Payload,          // by secret
    decrypt: (string, Payload) -> Option<Body>)

  /** A JSON object is never an empty text. */
  ghost predicate Undoes(codec: Codec) {
    forall b :: codec.text(codec.utf8(codec.stringify(b))) == codec.stringify(b)
             && codec.parse(codec.stringify(b)) == Some(b) && codec.utf8(codec.stringify(b)) != []
  }

  ghost predicate Seals(codec: Codec) {
    forall secret, b :: codec.decrypt(secret, codec.encrypt(secret, b)) == Some(b)
                     && codec.encrypt(secret, b).algorithm != PLAIN_MESSAGE_ALGORITHM
  }

  function EncodePlainMessage(codec: Codec, body: Body): Payload {
    Payload(BytesToBase64Url(codec.utf8(codec.stringify(body))), "", PLAIN_MESSAGE_ALGORITHM, "plain")
  }

  function DecodeMessagePayload(codec: Codec, roomSecret: string, payload: Payload): Option<Body> {
    if payload.algorithm == PLAIN_MESSAGE_ALGORITHM then
      var bytes := Base64UrlToBytes(payload.ciphertext);
      if bytes.None? then None else codec.parse(codec.text(bytes.value))
    else if roomSecret == "" then None
    else codec.decrypt(roomSecret, payload)
  }

  /** What is sent plain is accepted by the store, from any sender and for any room, and read by
      everyone as it was written, whatever secret they hold. */
  lemma PlainIsReadByAll(codec: Codec, body: Body, roomId: string, senderId: string, roomSecret: string)
    requires Undoes(codec)
    ensures DecodeMessagePayload(codec, roomSecret, EncodePlainMessage(codec, body)) == Some(body)
    ensures ValidPayload(roomId, senderId, EncodePlainMessage(codec, body)) <==> roomId != "" && senderId != ""
  {
    var bytes := codec.utf8(codec.stringify(body));
    UrlRoundTrip(bytes);
    OutputIsUrlSafe(bytes);
    assert |BytesToBase64Url(bytes)| > 0;
    assert PLAIN_MESSAGE_ALGORITHM[..6] == "PLAIN-";
    hide BytesToBase64Url, Base64UrlToBytes, UrlLetter;
  }

  /** What is sent encrypted is read by everyone who holds the same secret, and by nobody without one. */
  lemma SealedIsReadByHolders(codec: Codec, body: Body, roomSecret: string)
    requires Seals(codec)
    ensures DecodeMessagePayload(codec, roomSecret, codec.encrypt(roomSecret, body))
         == if roomSecret != "" then Some(body) else None
    ensures DecodeMessagePayload(codec, "", codec.encrypt(roomSecret, body)) == None
  {
    hide Base64UrlToBytes;
  }
}
