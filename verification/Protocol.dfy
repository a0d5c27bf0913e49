/** Message codes: the methods and response codes, and the numbers they go over the wire as. */
module Protocol {
  import opened Sequences
  import opened VarInt

  datatype Method = Get | Put | Delete | Post | Fetch | IPatch | Patch

  /** The response codes registered with the IANA that the library knows, class and detail in one byte. */
  predicate IsResponseCode(n: byte) {
    n in {65, 66, 67, 68, 69, 95, 128, 129, 130, 131, 132, 133, 134, 136, 137, 140, 141, 143, 150, 157,
          160, 161, 162, 163, 164, 165, 168}
  }

  type ResponseCode = n: byte | IsResponseCode(n) witness 69

  datatype MessageCode = NoCode | RequestCode(verb: Method) | AnswerCode(code: ResponseCode)

  /** The number a method has by definition; also the one it is recognised by. */
  function MethodNumber(m: Method): byte {
    match m
    case Get => 1
    case Post => 2
    case Put => 3
    case Delete => 4
    case Fetch => 5
    case Patch => 6
    case IPatch => 7
  }

  /** `CoapRequestCode::to_raw_request`; libcoap's methods are named like the wrapper's. */
  function ToRawRequest(m: Method): Method {
    if m == Delete then Fetch else m
  }

  /** `to_raw_pdu_code`, the number a message is sent with. */
  function ToRawPduCode(c: MessageCode): byte {
    match c
    case NoCode => 0
    case RequestCode(m) => MethodNumber(if m == Delete then Fetch else m)
    case AnswerCode(n) => n
  }

  /** Recognises the code of a received message; None where the conversion is unwrapped and panics. */
  function FromRawPduCode(n: byte): Option<MessageCode> {
    if n == 0 then Some(NoCode)
    else if n == 1 then Some(RequestCode(Get))
    else if n == 2 then Some(RequestCode(Post))
    else if n == 3 then Some(RequestCode(Put))
    else if n == 4 then Some(RequestCode(Delete))
    else if n == 5 then Some(RequestCode(Fetch))
    else if n == 6 then Some(RequestCode(Patch))
    else if n == 7 then Some(RequestCode(IPatch))
    else if IsResponseCode(n) then Some(AnswerCode(n))
    else None
  }

  /** The number a code has by definition, also where it is sent with another one. */
  function CodeNumber(c: MessageCode): byte {
    match c
    case NoCode => 0
    case RequestCode(m) => MethodNumber(m)
    case AnswerCode(n) => n
  }

  /** A received number is recognised exactly when some code has it, and then as that code. */
  lemma CodeRecognised(n: byte)
    ensures FromRawPduCode(n).Some? <==> exists c :: CodeNumber(c) == n
    ensures FromRawPduCode(n).Some? ==> CodeNumber(FromRawPduCode(n).value) == n
  {
    if FromRawPduCode(n).Some? {
      assert CodeNumber(FromRawPduCode(n).value) == n;
    }
    if c :| CodeNumber(c) == n {
      assert FromRawPduCode(n).Some?;
    }
  }

  /** The code a message arrives with. */
  function Arriving(c: MessageCode): MessageCode {
    if c == RequestCode(Delete) then RequestCode(Fetch) else c
  }

  /** Every code is recognised by its receiver, as itself exactly when it is not that of a DELETE request. */
  lemma CodeRoundTrip(c: MessageCode)
    ensures FromRawPduCode(ToRawPduCode(c)) == Some(Arriving(c))
    ensures FromRawPduCode(ToRawPduCode(c)) == Some(c) <==> c != RequestCode(Delete)
  {
  }
}
