/** The URI schemes libcoap knows and their names. */
module UriScheme {
  import opened Sequences
  import opened CoapOptions

  datatype Scheme = Coap | Coaps | CoapTcp | CoapsTcp | Http | Https | CoapWs | CoapsWs

  /** ASCII names: coap, coaps, coap+tcp, coaps+tcp, http, https, coap+ws, coaps+ws. */
  function SchemeBytes(s: Scheme): Bytes {
    match s
    case Coap => [99, 111, 97, 112]
    case Coaps => [99, 111, 97, 112, 115]
    case CoapTcp => [99, 111, 97, 112, 43, 116, 99, 112]
    case CoapsTcp => [99, 111, 97, 112, 115, 43, 116, 99, 112]
    case Http => [104, 116, 116, 112]
    case Https => [104, 116, 116, 112, 115]
    case CoapWs => [99, 111, 97, 112, 43, 119, 115]
    case CoapsWs => [99, 111, 97, 112, 115, 43, 119, 115]
  }

  lemma {:induction false} AsciiIsUtf8(s: Bytes)
    requires forall i :: 0 <= i < |s| ==> s[i] < 128
    ensures IsUtf8(s)
  {
    if s != [] {
      AsciiIsUtf8(s[1..]);
    }
  }

  function SchemeText(s: Scheme): (r: Text)
    ensures r == SchemeBytes(s)
  {
    AsciiIsUtf8(SchemeBytes(s));
    SchemeBytes(s)
  }

  function SchemeFromText(t: Text): Option<Scheme> {
    if t == SchemeText(Coap) then Some(Coap)
    else if t == SchemeText(Coaps) then Some(Coaps)
    else if t == SchemeText(CoapTcp) then Some(CoapTcp)
    else if t == SchemeText(CoapsTcp) then Some(CoapsTcp)
    else if t == SchemeText(Http) then Some(Http)
    else if t == SchemeText(Https) then Some(Https)
    else if t == SchemeText(CoapWs) then Some(CoapWs)
    else if t == SchemeText(CoapsWs) then Some(CoapsWs)
    else None
  }

  lemma SchemeTextsDiffer(a: Scheme, b: Scheme)
    requires a != b
    ensures SchemeText(a) != SchemeText(b)
  {
    hide SchemeText, IsUtf8;
    var m, n := SchemeBytes(a), SchemeBytes(b);
    assert |m| != |n| || m[0] != n[0] || m[4] != n[4];
  }

  /** Printing and parsing schemes are inverse to each other. */
  lemma SchemeRoundTrip(s: Scheme, t: Text)
    ensures SchemeFromText(SchemeText(s)) == Some(s)
    ensures SchemeFromText(t) == Some(s) ==> SchemeText(s) == t
  {
    hide SchemeText, SchemeBytes, IsUtf8;
    forall b: Scheme | b != s
      ensures SchemeText(b) != SchemeText(s)
    {
      SchemeTextsDiffer(b, s);
    }
  }
}
