/** How a response body goes into the JSON result.  A JSON string holds Unicode
    scalar values, not octets, so a body that is not UTF-8 goes in as base64 with
    a marker beside it. */
module Envelope {
  import Utf8
  import Base64
  import Wrappers

  /** The pair (response_body, response_body_encoding): without the marker the
      body is a Unicode text, with it the text is base64. */
  datatype Envelope = Plain(text: seq<bv32>) | Marked(base64: string)

  ghost predicate Legal(e: Envelope) {
    match e
    case Plain(text) => Utf8.AllScalars(text)
    case Marked(text) => forall i :: 0 <= i < |text| ==> text[i] == '=' || Base64.Value(text[i]).Some?
  }

  function EnvelopeOf(body: seq<bv8>): Envelope {
    if Utf8.Valid(body) then Plain(Utf8.Decode(body)) else Marked(Base64.Encode(body))
  }

  /** What a reader of the result gets back; nothing if the base64 is wrong. */
  ghost function Recover(e: Envelope): Wrappers.Option<seq<bv8>>
    requires Legal(e)
  {
    match e
    case Plain(text) => Wrappers.Some(Utf8.EncodeAll(text))
    case Marked(text) => Base64.Decode(text)
  }

  /** The envelope is lossless: for every body it is legal JSON, and the octets
      come back exactly.  The marker is there just when the body is no UTF-8. */
  lemma Lossless(body: seq<bv8>)
    ensures Legal(EnvelopeOf(body)) && Recover(EnvelopeOf(body)) == Wrappers.Some(body)
    ensures EnvelopeOf(body).Plain? <==> exists vs :: Utf8.AllScalars(vs) && Utf8.EncodeAll(vs) == body
  {
    Utf8.ValidIffEncodesScalars(body);
    if Utf8.Valid(body) {
      Utf8.DecodeThenEncode(body);
    } else {
      Base64.EncodedShape(body);
      Base64.EncodeThenDecode(body);
    }
  }

  lemma Injective(b1: seq<bv8>, b2: seq<bv8>)
    requires EnvelopeOf(b1) == EnvelopeOf(b2)
    ensures b1 == b2
  {
    Lossless(b1);
    Lossless(b2);
  }

  /** The body branch of the JSON rendering. */
  method RenderBody(body: seq<bv8>) returns (e: Envelope)
    ensures e == EnvelopeOf(body)
    ensures Legal(e) && Recover(e) == Wrappers.Some(body)
  {
    Lossless(body);
    var valid := Utf8.Check(body);
    if valid {
      e := Plain(Utf8.Decode(body));
    } else {
      var text := Base64.Base64Encode(body);
      e := Marked(text);
    }
  }
}
