/**
 The way of an option list through a message: typed options are encoded into libcoap's option
 list, libcoap orders that list by number (section 3.1 of RFC 7252), and the receiving side
 decodes the options in wire order.
 */
module Wire {
  import opened Sequences
  import opened VarInt
  import opened CoapOptions
  import opened Protocol

  datatype WireOption = WireOption(num: u16, value: Bytes)

  /** An option whose value cannot be converted, with the registered type of its number. */
  datatype OptionError = OptionError(option: Option<OptionType>, cause: ValueError)

  function WireNumber(w: WireOption): int { w.num }

  function OptionNumber(o: CoapOption): int { Number(o) }

  function EncodeAll(options: seq<CoapOption>): Result<seq<WireOption>, OptionError> {
    if options == [] then Ok([]) else
    var last := options[|options| - 1];
    var rest := EncodeAll(options[..|options| - 1]);
    if rest.Err? then rest
    else if IntoValueBytes(last).Err? then
      Err(OptionError(TypeOfNumber(Number(last)), IntoValueBytes(last).error))
    else Ok(rest.value + [WireOption(Number(last), IntoValueBytes(last).value)])
  }

  /** Builds the option list of a PDU, each entry appended to the tail. */
  method BuildOptlist(options: seq<CoapOption>) returns (r: Result<seq<WireOption>, OptionError>)
    ensures r == EncodeAll(options)
    ensures r.Err? ==> exists i: nat :: FirstUnencodable(options, i, r.error)
  {
    if EncodeAll(options).Err? {
      EncodeAllFails(options);
    }
    hide FirstUnencodable;
    var optlist: seq<WireOption> := [];
    for i := 0 to |options|
      invariant EncodeAll(options[..i]) == Ok(optlist)
    {
      assert options[..i + 1][..i] == options[..i];
      var entry := IntoValueBytes(options[i]);
      if entry.Err? {
        EncodeAllStopsAt(options, i + 1);
        return Err(OptionError(TypeOfNumber(Number(options[i])), entry.error));
      }
      optlist := optlist + [WireOption(Number(options[i]), entry.value)];
    }
    assert options[..|options|] == options;
    return Ok(optlist);
  }

  /** The first failure decides: a failing prefix fails the whole list alike. */
  lemma {:induction false} EncodeAllStopsAt(options: seq<CoapOption>, i: nat)
    requires i <= |options| && EncodeAll(options[..i]).Err?
    ensures EncodeAll(options) == EncodeAll(options[..i])
    decreases |options|
  {
    if i < |options| {
      assert options[..|options| - 1][..i] == options[..i];
      EncodeAllStopsAt(options[..|options| - 1], i);
    } else {
      assert options[..i] == options;
    }
  }

  function DecodeAll(wire: seq<WireOption>): Outcome<seq<CoapOption>, OptionError> {
    if wire == [] then Value([]) else
    var rest := DecodeAll(wire[..|wire| - 1]);
    if !rest.Value? then rest else
    match FromTypeValue(wire[|wire| - 1].num, wire[|wire| - 1].value)
    case Value(o) => Value(rest.value + [o])
    case Failure(e) => Failure(OptionError(TypeOfNumber(wire[|wire| - 1].num), e))
    case Panic => Panic
  }

  lemma {:induction false} DecodeAllStopsAt(wire: seq<WireOption>, i: nat)
    requires i <= |wire| && !DecodeAll(wire[..i]).Value?
    ensures DecodeAll(wire) == DecodeAll(wire[..i])
    decreases |wire|
  {
    if i < |wire| {
      assert wire[..|wire| - 1][..i] == wire[..i];
      DecodeAllStopsAt(wire[..|wire| - 1], i);
    } else {
      assert wire[..i] == wire;
    }
  }

  /** Reads the options of a raw PDU in wire order. */
  method ReadOptions(wire: seq<WireOption>) returns (r: Outcome<seq<CoapOption>, OptionError>)
    ensures r == DecodeAll(wire)
    ensures !r.Value? ==> exists i: nat :: FirstUnreadable(wire, i, r)
  {
    if !DecodeAll(wire).Value? {
      DecodeAllFails(wire);
    }
    hide FirstUnreadable;
    var options: seq<CoapOption> := [];
    for i := 0 to |wire|
      invariant DecodeAll(wire[..i]) == Value(options)
    {
      assert wire[..i + 1][..i] == wire[..i];
      var option := FromTypeValue(wire[i].num, wire[i].value);
      match option
      case Value(o) => options := options + [o];
      case Failure(e) =>
        DecodeAllStopsAt(wire, i + 1);
        return Failure(OptionError(TypeOfNumber(wire[i].num), e));
      case Panic =>
        DecodeAllStopsAt(wire, i + 1);
        return Panic;
    }
    assert wire[..|wire|] == wire;
    return Value(options);
  }

  // ---------------------------------------------------------------- options and their wire form

  ghost predicate Encodable(options: seq<CoapOption>) {
    forall o :: o in options ==> IntoValueBytes(o).Ok?
  }

  ghost predicate AllCanonical(options: seq<CoapOption>) {
    forall o :: o in options ==> Canonical(o)
  }

  /** `wire` is the element-wise encoding of `options`. */
  ghost predicate Carries(options: seq<CoapOption>, wire: seq<WireOption>) {
    && |options| == |wire|
    && forall i :: 0 <= i < |wire| ==>
         wire[i].num == Number(options[i]) && IntoValueBytes(options[i]) == Ok(wire[i].value)
  }

  lemma {:induction false} EncodeAllCarries(options: seq<CoapOption>)
    ensures EncodeAll(options).Ok? <==> Encodable(options)
    ensures EncodeAll(options).Ok? ==> Carries(options, EncodeAll(options).value)
  {
    hide Number, TypeOfNumber, IntoValueBytes;
    if options != [] {
      EncodeAllCarries(options[..|options| - 1]);
      assert options == options[..|options| - 1] + [options[|options| - 1]];
    }
  }

  /** Decoding succeeds exactly when every element decodes, and then decodes each element. */
  lemma {:induction false} DecodeAllElements(wire: seq<WireOption>)
    ensures DecodeAll(wire).Value? <==> forall w :: w in wire ==> FromTypeValue(w.num, w.value).Value?
    ensures DecodeAll(wire).Value? ==>
              && |DecodeAll(wire).value| == |wire|
              && forall i :: 0 <= i < |wire| ==>
                   FromTypeValue(wire[i].num, wire[i].value) == Value(DecodeAll(wire).value[i])
  {
    hide FromTypeValue;
    if wire != [] {
      DecodeAllElements(wire[..|wire| - 1]);
      assert wire == wire[..|wire| - 1] + [wire[|wire| - 1]];
    }
  }

  /** What arrives is canonical. */
  lemma DecodedIsCanonical(wire: seq<WireOption>)
    requires DecodeAll(wire).Value?
    ensures AllCanonical(DecodeAll(wire).value)
  {
    hide FromTypeValue, Canonical;
    DecodeAllElements(wire);
    var options := DecodeAll(wire).value;
    forall o | o in options
      ensures Canonical(o)
    {
      var i :| 0 <= i < |options| && options[i] == o;
      Reencodes(wire[i].num, wire[i].value);
    }
  }

  /** The i-th option is the first that does not encode, and why. */
  ghost predicate FirstUnencodable(options: seq<CoapOption>, i: nat, e: OptionError) {
    && i < |options| && (forall j :: 0 <= j < i ==> IntoValueBytes(options[j]).Ok?)
    && IntoValueBytes(options[i]) == Err(e.cause) && e.option == TypeOfNumber(Number(options[i]))
  }

  /** A list that does not encode is reported by its first option that does not, with that option's type. */
  lemma {:induction false} EncodeAllFails(options: seq<CoapOption>)
    requires EncodeAll(options).Err?
    ensures exists i: nat :: FirstUnencodable(options, i, EncodeAll(options).error)
  {
    hide Number, TypeOfNumber, IntoValueBytes;
    var n := |options| - 1;
    var init := options[..n];
    if EncodeAll(init).Err? {
      EncodeAllFails(init);
      var i: nat :| FirstUnencodable(init, i, EncodeAll(init).error);
      assert FirstUnencodable(options, i, EncodeAll(options).error);
    } else {
      EncodeAllCarries(init);
      assert forall j :: 0 <= j < n ==> init[j] == options[j];
      assert FirstUnencodable(options, n, EncodeAll(options).error);
    }
  }

  /** The i-th raw option is the first that cannot be read, and what that ends in. */
  ghost predicate FirstUnreadable(wire: seq<WireOption>, i: nat, r: Outcome<seq<CoapOption>, OptionError>) {
    && i < |wire| && (forall j :: 0 <= j < i ==> FromTypeValue(wire[j].num, wire[j].value).Value?)
    && match FromTypeValue(wire[i].num, wire[i].value)
       case Value(_) => false
       case Failure(e) => r == Failure(OptionError(TypeOfNumber(wire[i].num), e))
       case Panic => r == Panic
  }

  /** Raw options that cannot be read end as the first of them does: its error with its type, or its panic. */
  lemma {:induction false} DecodeAllFails(wire: seq<WireOption>)
    requires !DecodeAll(wire).Value?
    ensures exists i: nat :: FirstUnreadable(wire, i, DecodeAll(wire))
  {
    hide TypeOfNumber, FromTypeValue;
    var n := |wire| - 1;
    var init := wire[..n];
    assert forall j :: 0 <= j < n ==> init[j] == wire[j];
    if !DecodeAll(init).Value? {
      DecodeAllFails(init);
      var i: nat :| FirstUnreadable(init, i, DecodeAll(init));
      assert FirstUnreadable(wire, i, DecodeAll(wire));
    } else {
      DecodeAllElements(init);
      forall j | 0 <= j < n
        ensures FromTypeValue(wire[j].num, wire[j].value).Value?
      {
        assert init[j] in init;
      }
      assert FirstUnreadable(wire, n, DecodeAll(wire));
    }
  }

  lemma {:induction false} EncodeAllConcat(a: seq<CoapOption>, b: seq<CoapOption>)
    ensures EncodeAll(a + b).Ok? <==> EncodeAll(a).Ok? && EncodeAll(b).Ok?
    ensures EncodeAll(a + b).Ok? ==> EncodeAll(a + b).value == EncodeAll(a).value + EncodeAll(b).value
  {
    hide Number, TypeOfNumber, IntoValueBytes;
    if b == [] {
      assert a + b == a;
    } else {
      assert (a + b)[..|a + b| - 1] == a + b[..|b| - 1];
      EncodeAllConcat(a, b[..|b| - 1]);
    }
  }

  lemma {:induction false} DecodeAllConcat(a: seq<WireOption>, b: seq<WireOption>)
    ensures DecodeAll(a + b).Value? <==> DecodeAll(a).Value? && DecodeAll(b).Value?
    ensures DecodeAll(a + b).Value? ==> DecodeAll(a + b).value == DecodeAll(a).value + DecodeAll(b).value
  {
    hide TypeOfNumber, FromTypeValue;
    if b == [] {
      assert a + b == a;
    } else {
      assert (a + b)[..|a + b| - 1] == a + b[..|b| - 1];
      DecodeAllConcat(a, b[..|b| - 1]);
    }
  }

  // ---------------------------------------------------------------- what a receiver makes of options

  /** The options as a receiver would read them if they were left in their order. */
  function Seen(options: seq<CoapOption>): Outcome<seq<CoapOption>, OptionError>
    requires EncodeAll(options).Ok?
  {
    DecodeAll(EncodeAll(options).value)
  }

  lemma SeenConcat(a: seq<CoapOption>, b: seq<CoapOption>)
    requires EncodeAll(a + b).Ok?
    ensures EncodeAll(a).Ok? && EncodeAll(b).Ok?
    ensures Seen(a + b).Value? <==> Seen(a).Value? && Seen(b).Value?
    ensures Seen(a + b).Value? ==> Seen(a + b).value == Seen(a).value + Seen(b).value
  {
    EncodeAllConcat(a, b);
    DecodeAllConcat(EncodeAll(a).value, EncodeAll(b).value);
  }

  /** Canonical options are seen as they are, and only they are. */
  lemma SeenAsIs(options: seq<CoapOption>)
    requires EncodeAll(options).Ok?
    ensures Seen(options) == Value(options) <==> AllCanonical(options)
  {
    hide Number, IntoValueBytes, FromTypeValue, Canonical, EncodeAll, DecodeAll;
    EncodeAllCarries(options);
    var wire := EncodeAll(options).value;
    DecodeAllElements(wire);
    if AllCanonical(options) {
      forall i | 0 <= i < |wire|
        ensures FromTypeValue(wire[i].num, wire[i].value) == Value(options[i])
      {
        assert options[i] in options;
        DecodesBack(options[i]);
      }
      assert DecodeAll(wire).value == options;
    } else if Seen(options) == Value(options) {
      DecodedIsCanonical(wire);
    }
  }

  lemma DecodeSnoc(wire: seq<WireOption>, w: WireOption)
    ensures DecodeAll(wire + [w]).Value? <==> DecodeAll(wire).Value? && FromTypeValue(w.num, w.value).Value?
    ensures DecodeAll(wire + [w]).Value? ==>
              && DecodeAll(wire + [w]).value == DecodeAll(wire).value + [FromTypeValue(w.num, w.value).value]
              && OptionNumber(FromTypeValue(w.num, w.value).value) == WireNumber(w)
  {
    hide FromTypeValue, TypeOfNumber, Number, IntoValueBytes;
    assert (wire + [w])[..|wire|] == wire;
    if FromTypeValue(w.num, w.value).Value? {
      Reencodes(w.num, w.value);
    }
  }

  lemma {:induction false} DecodedFilter(wire: seq<WireOption>, n: int)
    requires DecodeAll(wire).Value?
    ensures DecodeAll(Filter(wire, KeyIs(WireNumber, n))).Value?
    ensures DecodeAll(Filter(wire, KeyIs(WireNumber, n))).value == Filter(DecodeAll(wire).value, KeyIs(OptionNumber, n))
  {
    if wire != [] {
      hide FromTypeValue, DecodeAll, Filter, OptionNumber, WireNumber;
      var init, w := wire[..|wire| - 1], wire[|wire| - 1];
      assert wire == init + [w];
      DecodeSnoc(init, w);
      DecodedFilter(init, n);
      FilterSnoc(init, w, KeyIs(WireNumber, n));
      FilterSnoc(DecodeAll(init).value, FromTypeValue(w.num, w.value).value, KeyIs(OptionNumber, n));
      DecodeSnoc(Filter(init, KeyIs(WireNumber, n)), w);
    }
  }

  /** Decoding commutes with the order libcoap puts the options in. */
  lemma DecodeSorted(sent: seq<WireOption>, wire: seq<WireOption>)
    requires IsStableSort(WireNumber, sent, wire)
    ensures DecodeAll(sent).Value? <==> DecodeAll(wire).Value?
    ensures DecodeAll(sent).Value? ==> IsStableSort(OptionNumber, DecodeAll(sent).value, DecodeAll(wire).value)
  {
    hide FromTypeValue, DecodeAll, Number, IntoValueBytes, TypeOfNumber;
    StableSortSameElements(WireNumber, sent, wire);
    DecodeAllElements(sent);
    DecodeAllElements(wire);
    if DecodeAll(sent).Value? {
      var a, b := DecodeAll(sent).value, DecodeAll(wire).value;
      forall i | 0 <= i < |wire|
        ensures OptionNumber(b[i]) == WireNumber(wire[i])
      {
        Reencodes(wire[i].num, wire[i].value);
      }
      assert Sorted(OptionNumber, b);
      forall n
        ensures Filter(b, KeyIs(OptionNumber, n)) == Filter(a, KeyIs(OptionNumber, n))
      {
        DecodedFilter(sent, n);
        DecodedFilter(wire, n);
      }
    }
  }

  /** Canonical options that encode arrive as their own stable sort by number. */
  lemma PipelineSorts(options: seq<CoapOption>, wire: seq<WireOption>)
    requires AllCanonical(options)
    requires EncodeAll(options).Ok? && IsStableSort(WireNumber, EncodeAll(options).value, wire)
    ensures DecodeAll(wire).Value?
    ensures IsStableSort(OptionNumber, options, DecodeAll(wire).value)
  {
    hide EncodeAll, DecodeAll, AllCanonical;
    SeenAsIs(options);
    DecodeSorted(EncodeAll(options).value, wire);
  }

  // ---------------------------------------------------------------- whole messages

  /** A message as the library holds it; type, message ID and token go through unchanged and are left out. */
  datatype Message = Message(code: MessageCode, options: seq<CoapOption>, data: Option<Bytes>)

  /** A raw message; no payload and an empty one are the same thing there. */
  datatype Pdu = Pdu(code: byte, options: seq<WireOption>, payload: Bytes)

  /** What sending demands of a message: options that encode, and no data in an empty message. */
  predicate Sendable(m: Message) {
    EncodeAll(m.options).Ok? && (m.code == NoCode ==> m.data == None)
  }

  function PayloadOf(data: Option<Bytes>): Bytes {
    if data == None then [] else data.value
  }

  /** `pdu` is what `apply_to_raw_pdu` and libcoap's ordering of the options make of the message. */
  ghost predicate SentAs(m: Message, pdu: Pdu) {
    && Sendable(m)
    && pdu.code == ToRawPduCode(m.code)
    && IsStableSort(WireNumber, EncodeAll(m.options).value, pdu.options)
    && pdu.payload == PayloadOf(m.data)
  }

  datatype SendError = InvalidOptionValue(error: OptionError) | DataInEmptyMessage

  /** `apply_to_raw_pdu`, with libcoap's ordering of the options: the raw message, or the error in the order of the checks. */
  method ApplyToRawPdu(m: Message) returns (r: Result<Pdu, SendError>)
    ensures r.Ok? ==> SentAs(m, r.value)
    ensures r.Err? <==> !Sendable(m)
    ensures r == Err(DataInEmptyMessage) <==> Encodable(m.options) && m.code == NoCode && m.data.Some?
    ensures r.Err? && r.error.InvalidOptionValue? ==> exists i: nat :: FirstUnencodable(m.options, i, r.error.error)
  {
    hide EncodeAll, FirstUnencodable;
    EncodeAllCarries(m.options);
    var optlist := BuildOptlist(m.options);
    if optlist.Err? {
      EncodeAllFails(m.options);
      return Err(InvalidOptionValue(optlist.error));
    }
    var payload: Bytes := [];
    if m.data.Some? {
      if m.code == NoCode {
        return Err(DataInEmptyMessage);
      }
      payload := m.data.value;
    }
    StableSortExists(WireNumber, optlist.value);
    return Ok(Pdu(ToRawPduCode(m.code), StableSort(WireNumber, optlist.value), payload));
  }

  /** Which messages can be sent: those whose options all encode and that are not empty with data. */
  lemma SendableExactly(m: Message)
    ensures Sendable(m) <==>
            (forall i :: 0 <= i < |m.options| ==> IntoValueBytes(m.options[i]).Ok?) && !(m.code == NoCode && m.data.Some?)
  {
    hide EncodeAll, IntoValueBytes;
    EncodeAllCarries(m.options);
  }

  /** The one raw message. */
  function WireForm(m: Message): Option<Pdu> {
    if Sendable(m)
    then Some(Pdu(ToRawPduCode(m.code), StableSort(WireNumber, EncodeAll(m.options).value), PayloadOf(m.data)))
    else None
  }

  /** Every sendable message has exactly one raw form, however libcoap sorts. */
  lemma OneWireForm(m: Message, pdu: Pdu)
    ensures SentAs(m, pdu) <==> WireForm(m) == Some(pdu)
  {
    hide EncodeAll, ToRawPduCode;
    if Sendable(m) {
      var sent := EncodeAll(m.options).value;
      StableSortExists(WireNumber, sent);
      if SentAs(m, pdu) {
        StableSortUnique(WireNumber, StableSort(WireNumber, sent), pdu.options);
      }
    }
  }

  /** `from_raw_pdu`. */
  function FromRawPdu(pdu: Pdu): Outcome<Message, OptionError> {
    match DecodeAll(pdu.options)
    case Failure(e) => Failure(e)
    case Panic => Panic
    case Value(options) =>
      match FromRawPduCode(pdu.code)
      case None => Panic
      case Some(code) => Value(Message(code, options, if pdu.payload == [] then None else Some(pdu.payload)))
  }

  /** A raw message cannot be read exactly when an option cannot, which is reported, or its code is unknown, which panics. */
  lemma FromRawPduFails(pdu: Pdu)
    ensures FromRawPdu(pdu).Value? <==> DecodeAll(pdu.options).Value? && FromRawPduCode(pdu.code).Some?
    ensures FromRawPdu(pdu).Failure? <==> DecodeAll(pdu.options).Failure?
    ensures FromRawPdu(pdu).Failure? ==>
              exists i: nat :: FirstUnreadable(pdu.options, i, Failure(FromRawPdu(pdu).error))
  {
    hide DecodeAll, FromRawPduCode, FirstUnreadable;
    if !DecodeAll(pdu.options).Value? {
      DecodeAllFails(pdu.options);
    }
  }

  /**
   What arrives of any message that is sent: its code, except that DELETE arrives as FETCH; its data,
   except that empty data is lost; and the stable sort of its options as they are seen one by one.
   */
  lemma MessageArrives(m: Message, pdu: Pdu)
    requires SentAs(m, pdu)
    ensures FromRawPdu(pdu).Value? <==> Seen(m.options).Value?
    ensures FromRawPdu(pdu).Value? ==>
              var r := FromRawPdu(pdu).value;
              && r.code == Arriving(m.code)
              && r.data == (if m.data == Some([]) then None else m.data)
              && Value(r.options) == DecodeAll(pdu.options)
              && IsStableSort(OptionNumber, Seen(m.options).value, r.options)
  {
    hide EncodeAll, DecodeAll, ToRawPduCode, FromRawPduCode, Arriving;
    CodeRoundTrip(m.code);
    DecodeSorted(EncodeAll(m.options).value, pdu.options);
  }
}
