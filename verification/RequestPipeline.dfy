/**
 What a request keeps end to end: emitted, encoded, ordered by libcoap, decoded and scanned
 again; and what parsing followed by emission keeps of a received message.
 */
module RequestPipeline {
  import opened Sequences
  import opened CoapOptions
  import opened UriScheme
  import opened Protocol
  import opened Wire
  import opened Request

  /** The requests whose options come back unchanged. */
  ghost predicate OptionsFaithful(rq: CoapRequest) {
    && rq.fields.noResponse == None
    && rq.fields.etag != Some([])
    && rq.fields.ifMatch != Some([])
    && MatchETag([]) !in ListOf(rq.fields.ifMatch)
    && (forall o :: o in rq.extra ==> Unregistered(o))
  }

  /** The receiver of `wire` sees the request's fields, and its extra options in wire order. */
  ghost predicate OptionsRestored(rq: CoapRequest, wire: seq<WireOption>) {
    && DecodeAll(wire).Value?
    && ParseOptions(DecodeAll(wire).value).Ok?
    && var scan := ParseOptions(DecodeAll(wire).value).value;
       && scan.fields == rq.fields
       && IsStableSort(OptionNumber, rq.extra, scan.additional)
  }

  /** `wire` is what libcoap makes of the options of the emitted request. */
  ghost predicate OptionsSent(rq: CoapRequest, wire: seq<WireOption>) {
    && Emits(rq)
    && EncodeAll(Emitted(rq)).Ok?
    && IsStableSort(WireNumber, EncodeAll(Emitted(rq)).value, wire)
  }

  // ---------------------------------------------------------------- the kinds an emission holds

  lemma UnregisteredKind(options: seq<CoapOption>, k: Option<OptionType>)
    requires forall o :: o in options ==> Unregistered(o)
    ensures OfKind(options, k) == if k == None then options else []
  {
    hide TypeOfNumber;
    assert forall o :: o in options ==> Kind(o) == None;
    if k == None {
      OfKindAll(options, k);
    } else {
      OfKindNone(options, k);
    }
  }

  lemma UriOptionsKind(v: UriView, k: Option<OptionType>)
    requires UriContract(v) && UriDecodes(v) && (k == None || !UriKind(k.value))
    ensures OfKind(UriOptions(v), k) == []
  {
    hide UriOptions, UriDecodes, UriContract, OfKind;
    UriContractShape(v);
    assert forall o :: o in UriOptions(v) ==> Kind(o) != k;
    OfKindNone(UriOptions(v), k);
  }

  lemma SchemeOptionsKind(v: UriView, k: Option<OptionType>)
    requires v.isProxy ==> v.scheme.Some?
    ensures OfKind(SchemeOptions(v), k) == if k == Some(OptionType.ProxyScheme) then SchemeOptions(v) else []
  {
    hide SchemeText;
    if k == Some(OptionType.ProxyScheme) {
      OfKindAll(SchemeOptions(v), k);
    } else {
      OfKindNone(SchemeOptions(v), k);
    }
  }

  /** Everything an emission holds, by kind. */
  lemma EmissionByKind(rq: CoapRequest, k: Option<OptionType>)
    requires Emits(rq) && UriContract(rq.uri)
    ensures OfKind(Emitted(rq), k) ==
            OfKind(rq.extra, k) + OfKind(SchemeOptions(rq.uri), k) + OfKind(UriOptions(rq.uri), k)
            + if k.Some? && FieldKind(k.value) then FieldOptions(rq.fields, k.value) else []
    ensures k.Some? && FieldKind(k.value) ==>
              OfKind(Emitted(rq), k) == OfKind(rq.extra, k) + FieldOptions(rq.fields, k.value)
    ensures k == None ==> OfKind(Emitted(rq), k) == OfKind(rq.extra, k)
  {
    hide Emitted, FieldOptions, SchemeOptions, UriOptions, UriDecodes, UriContract, OfKind;
    EmittedOfKind(rq, k);
    OfKindConcat(rq.extra + SchemeOptions(rq.uri), UriOptions(rq.uri), k);
    OfKindConcat(rq.extra, SchemeOptions(rq.uri), k);
    if k == None || FieldKind(k.value) {
      UriOptionsKind(rq.uri, k);
      SchemeOptionsKind(rq.uri, k);
    }
  }

  lemma EmissionMembers(rq: CoapRequest, o: CoapOption)
    requires Emits(rq) && UriContract(rq.uri) && o in Emitted(rq)
    ensures o in rq.extra || o in SchemeOptions(rq.uri) || o in UriOptions(rq.uri)
            || (Kind(o).Some? && FieldKind(Kind(o).value) && o in FieldOptions(rq.fields, Kind(o).value))
  {
    hide Emitted, FieldOptions, SchemeOptions, FieldKind, Kind, UriOptions, UriDecodes, UriContract;
    FilterMembers(Emitted(rq), KindIs(Kind(o)));
    assert o in OfKind(Emitted(rq), Kind(o));
    EmissionByKind(rq, Kind(o));
    FilterMembers(rq.extra, KindIs(Kind(o)));
    FilterMembers(SchemeOptions(rq.uri), KindIs(Kind(o)));
    FilterMembers(UriOptions(rq.uri), KindIs(Kind(o)));
  }

  lemma FieldOptionsAtMostOne(f: Fields, t: OptionType)
    requires NonRepeatable(t)
    ensures |FieldOptions(f, t)| <= 1
  {
    hide IfMatchOptions, ETagOptions;
  }

  lemma EmittedKindCount(rq: CoapRequest, t: OptionType)
    requires Emits(rq) && UriContract(rq.uri) && OptionsFaithful(rq)
    ensures NonRepeatable(t) ==> |OfKind(Emitted(rq), Some(t))| <= 1
    ensures ResponseOnly(t) || t == OptionType.ProxyUri ==> OfKind(Emitted(rq), Some(t)) == []
  {
    hide Emitted, SchemeText, FieldOptions, TypeOfNumber, OfKind, UriOptions, UriDecodes, UriContract;
    EmissionByKind(rq, Some(t));
    UriContractShape(rq.uri);
    UnregisteredKind(rq.extra, Some(t));
    SchemeOptionsKind(rq.uri, Some(t));
    if !UriKind(t) {
      UriOptionsKind(rq.uri, Some(t));
    }
    if NonRepeatable(t) {
      FieldOptionsAtMostOne(rq.fields, t);
    }
  }

  lemma EmittedSchemeKnown(rq: CoapRequest, o: CoapOption)
    requires Emits(rq) && UriContract(rq.uri) && OptionsFaithful(rq) && o in Emitted(rq)
    ensures !BadScheme(o)
  {
    hide Emitted, SchemeText, SchemeFromText, FieldOptions, TypeOfNumber, OfKind, UriOptions, UriDecodes, UriContract;
    EmissionMembers(rq, o);
    UriContractShape(rq.uri);
    if o.ProxyScheme? {
      assert Kind(o) == Some(OptionType.ProxyScheme);
      SchemeRoundTrip(rq.uri.scheme.value, o.scheme);
    }
  }

  lemma EmittedScannable(rq: CoapRequest)
    requires Emits(rq) && UriContract(rq.uri) && OptionsFaithful(rq)
    ensures Acceptable(Emitted(rq))
  {
    hide Emitted, OptionsFaithful, UriContract, BadScheme, NonRepeatable, ResponseOnly, OfKind;
    forall t
      ensures NonRepeatable(t) ==> |OfKind(Emitted(rq), Some(t))| <= 1
      ensures ResponseOnly(t) || t == OptionType.ProxyUri ==> OfKind(Emitted(rq), Some(t)) == []
    {
      EmittedKindCount(rq, t);
    }
    forall o | o in Emitted(rq)
      ensures !BadScheme(o)
    {
      EmittedSchemeKnown(rq, o);
    }
  }

  lemma FieldOptionsCanonical(f: Fields, t: OptionType)
    requires f.noResponse == None && MatchETag([]) !in ListOf(f.ifMatch)
    ensures AllCanonical(FieldOptions(f, t))
  {
    hide TypeOfNumber;
  }

  lemma EmittedCanonical(rq: CoapRequest)
    requires Emits(rq) && UriContract(rq.uri) && OptionsFaithful(rq)
    ensures AllCanonical(Emitted(rq))
  {
    hide Emitted, SchemeText, FieldOptions, TypeOfNumber, FieldKind, UriOptions, UriDecodes, UriContract;
    UriContractShape(rq.uri);
    forall o | o in Emitted(rq)
      ensures Canonical(o)
    {
      EmissionMembers(rq, o);
      if Kind(o).Some? {
        FieldOptionsCanonical(rq.fields, Kind(o).value);
      }
    }
  }

  /** Scanning an emission gives back the fields and the extra options. */
  lemma EmittedParses(rq: CoapRequest)
    requires Emits(rq) && UriContract(rq.uri) && OptionsFaithful(rq)
    ensures ParseOptions(Emitted(rq)).Ok?
    ensures ParseOptions(Emitted(rq)).value.fields == rq.fields
    ensures ParseOptions(Emitted(rq)).value.additional == rq.extra
  {
    hide Emitted, FieldOptions, OfKind, Unregistered, Acceptable;
    EmittedScannable(rq);
    ParseDecides(Emitted(rq));
    var s := ParseOptions(Emitted(rq)).value;
    forall t
      ensures FieldOptions(s.fields, t) == FieldOptions(rq.fields, t)
    {
      RecordedField(s, rq.fields, t);
      if FieldKind(t) {
        assert Recorded(s, Some(t)) == OfKind(Emitted(rq), Some(t));
        EmissionByKind(rq, Some(t));
        UnregisteredKind(rq.extra, Some(t));
      }
    }
    FieldsDetermine(s.fields, rq.fields);
    LeftoverIsOther(s, Emitted(rq));
    EmissionByKind(rq, None);
    UnregisteredKind(rq.extra, None);
    assert s.additional == OfKind(Emitted(rq), None) by { OfKindIsFilter(Emitted(rq), None); }
  }

  lemma OfKindIsFilter(options: seq<CoapOption>, k: Option<OptionType>)
    ensures OfKind(options, k) == Filter(options, KindIs(k))
  {
  }

  lemma RecordedField(s: Scan, f: Fields, t: OptionType)
    ensures FieldKind(t) ==> Kept(Some(t)) && Recorded(s, Some(t)) == FieldOptions(s.fields, t)
    ensures !FieldKind(t) ==> FieldOptions(s.fields, t) == FieldOptions(f, t) == []
  {
    hide IfMatchOptions, ETagOptions, PathOptions, QueryOptions, SchemeText;
  }

  // ---------------------------------------------------------------- end to end

  lemma FaithfulRestores(rq: CoapRequest, wire: seq<WireOption>)
    requires UriContract(rq.uri) && OptionsSent(rq, wire) && OptionsFaithful(rq)
    ensures OptionsRestored(rq, wire)
  {
    hide Emitted, ParseOptions, EncodeAll, DecodeAll, AllCanonical, Encodable;
    EncodeAllCarries(Emitted(rq));
    EmittedCanonical(rq);
    PipelineSorts(Emitted(rq), wire);
    EmittedParses(rq);
    SortInvisibleToScan(Emitted(rq), DecodeAll(wire).value);
  }

  lemma EmittedReachesWire(rq: CoapRequest, wire: seq<WireOption>, o: CoapOption)
    requires OptionsSent(rq, wire) && o in Emitted(rq)
    ensures IntoValueBytes(o).Ok? && WireOption(Number(o), IntoValueBytes(o).value) in wire
  {
    hide Emitted, EncodeAll, Number, IntoValueBytes;
    EncodeAllCarries(Emitted(rq));
    var sent := EncodeAll(Emitted(rq)).value;
    StableSortSameElements(WireNumber, sent, wire);
    var i :| 0 <= i < |Emitted(rq)| && Emitted(rq)[i] == o;
    assert sent[i] == WireOption(Number(o), IntoValueBytes(o).value);
  }

  lemma NoResponseIsEmitted(rq: CoapRequest)
    requires UriContract(rq.uri) && Emits(rq) && rq.fields.noResponse.Some?
    ensures CoapOption.NoResponse(rq.fields.noResponse.value) in Emitted(rq)
  {
    hide Emitted, OfKind, UriContract;
    var k := Some(OptionType.NoResponse);
    EmissionByKind(rq, k);
    OfKindIsFilter(Emitted(rq), k);
    assert CoapOption.NoResponse(rq.fields.noResponse.value) in FieldOptions(rq.fields, OptionType.NoResponse);
    FilterMembers(Emitted(rq), KindIs(k));
  }

  lemma NoResponseReachesWire(rq: CoapRequest, wire: seq<WireOption>)
    requires UriContract(rq.uri) && OptionsSent(rq, wire) && rq.fields.noResponse.Some?
    ensures WireOption(TypeNumber(OptionType.NoResponse), [rq.fields.noResponse.value]) in wire
  {
    hide Emitted, UriContract, EncodeAll;
    NoResponseIsEmitted(rq);
    EmittedReachesWire(rq, wire, CoapOption.NoResponse(rq.fields.noResponse.value));
  }

  lemma RestoresNoNoResponse(rq: CoapRequest, wire: seq<WireOption>)
    requires UriContract(rq.uri) && OptionsSent(rq, wire) && DecodeAll(wire).Value?
    ensures rq.fields.noResponse == None
  {
    hide OptionsSent, FromTypeValue, TypeNumber;
    if rq.fields.noResponse.Some? {
      NoResponseReachesWire(rq, wire);
      DecodeAllElements(wire);
      NoResponseNeverDecodes([rq.fields.noResponse.value]);
    }
  }

  lemma RestoresExtra(rq: CoapRequest, wire: seq<WireOption>)
    requires OptionsRestored(rq, wire)
    ensures forall o :: o in rq.extra ==> Unregistered(o)
    ensures rq.fields.etag != Some([]) && rq.fields.ifMatch != Some([])
    ensures MatchETag([]) !in ListOf(rq.fields.ifMatch)
  {
    hide ParseOptions, DecodeAll, OfKind, Acceptable;
    var back := DecodeAll(wire).value;
    var s := ParseOptions(back).value;
    ParseDecides(back);
    DecodedIsCanonical(wire);
    LeftoverIsOther(s, back);
    FilterMembers(back, KindIs(None));
    StableSortSameElements(OptionNumber, rq.extra, s.additional);
    forall o | o in rq.extra
      ensures Unregistered(o)
    {
      assert o in back && Kind(o) == None;
      OtherWhenKindNone(o);
    }
    if MatchETag([]) in ListOf(rq.fields.ifMatch) {
      IfMatchOccurs(s, back, MatchETag([]));
      assert false;
    }
  }

  lemma OtherWhenKindNone(o: CoapOption)
    requires Kind(o) == None
    ensures o.Other?
  {
  }

  lemma IfMatchOccurs(s: Scan, options: seq<CoapOption>, m: CoapMatch)
    requires Records(s, options) && m in ListOf(s.fields.ifMatch)
    ensures CoapOption.IfMatch(m) in options
  {
    var l := ListOf(s.fields.ifMatch);
    var i :| 0 <= i < |l| && l[i] == m;
    assert Recorded(s, Some(OptionType.IfMatch)) == OfKind(options, Some(OptionType.IfMatch));
    assert IfMatchOptions(l)[i] == CoapOption.IfMatch(m);
    FilterMembers(options, KindIs(Some(OptionType.IfMatch)));
  }

  lemma OptionsRoundTrip(rq: CoapRequest, wire: seq<WireOption>)
    requires UriContract(rq.uri) && OptionsSent(rq, wire)
    ensures OptionsRestored(rq, wire) <==> OptionsFaithful(rq)
  {
    hide OptionsSent, UriContract;
    if OptionsFaithful(rq) {
      FaithfulRestores(rq, wire);
    }
    if OptionsRestored(rq, wire) {
      RestoresNoNoResponse(rq, wire);
      RestoresExtra(rq, wire);
    }
  }

  /** The requests that come back unchanged. */
  ghost predicate Faithful(rq: CoapRequest) {
    OptionsFaithful(rq) && rq.code != RequestCode(Delete) && rq.data != Some([])
  }

  /** The receiver of `pdu` sees the request: code, data, fields, and extra options in wire order. */
  ghost predicate Restores(rq: CoapRequest, pdu: Pdu) {
    && FromRawPdu(pdu).Value?
    && FromRawPdu(pdu).value.code == rq.code
    && FromRawPdu(pdu).value.data == rq.data
    && OptionsRestored(rq, pdu.options)
  }

  /**
   End to end: a request that can be sent is restored by its receiver (code, data and fields exactly,
   extra options in wire order) if and only if it is faithful.
   */
  lemma RequestRoundTrip(rq: CoapRequest, pdu: Pdu)
    requires UriContract(rq.uri) && Emits(rq) && SentAs(EmittedMessage(rq), pdu)
    ensures Restores(rq, pdu) <==> Faithful(rq)
  {
    hide UriContract, Emits, Emitted, EncodeAll, DecodeAll, OptionsRestored, OptionsFaithful;
    OptionsRoundTrip(rq, pdu.options);
    MessageArrives(EmittedMessage(rq), pdu);
    RestoredIsRead(rq, pdu.options);
    CodeRoundTrip(rq.code);
  }

  lemma RestoredIsRead(rq: CoapRequest, wire: seq<WireOption>)
    requires UriContract(rq.uri) && OptionsSent(rq, wire)
    ensures OptionsRestored(rq, wire) ==> Seen(Emitted(rq)).Value?
  {
    hide Emits, Emitted, EncodeAll, DecodeAll, UriContract;
    DecodeSorted(EncodeAll(Emitted(rq)).value, wire);
  }

  /** The proxy scheme as scanned, given the options it is recorded as. */
  lemma ProxySchemeRecorded(s: Scan, v: UriView)
    requires v.isProxy ==> v.scheme.Some?
    requires Recorded(s, Some(OptionType.ProxyScheme)) == SchemeOptions(v)
    ensures s.proxyScheme == if v.isProxy then v.scheme else None
  {
    hide SchemeText, SchemeFromText, IsUtf8, FieldOptions;
    if v.isProxy && s.proxyScheme.Some? {
      SchemeRoundTrip(v.scheme.value, SchemeText(v.scheme.value));
      SchemeRoundTrip(s.proxyScheme.value, SchemeText(s.proxyScheme.value));
    }
  }

  lemma EmittedUriParses(rq: CoapRequest, t: OptionType)
    requires Emits(rq) && UriContract(rq.uri) && OptionsFaithful(rq)
    requires UriKind(t) || t == OptionType.ProxyScheme || t == OptionType.ProxyUri
    ensures ParseOptions(Emitted(rq)).Ok?
    ensures Recorded(ParseOptions(Emitted(rq)).value, Some(t))
            == if UriKind(t) then OfKind(UriOptions(rq.uri), Some(t))
               else if t == OptionType.ProxyScheme then SchemeOptions(rq.uri) else []
  {
    hide Emitted, FieldOptions, OfKind, Unregistered, Acceptable, Recorded, SchemeOptions;
    EmittedScannable(rq);
    ParseDecides(Emitted(rq));
    EmissionByKind(rq, Some(t));
    UnregisteredKind(rq.extra, Some(t));
    SchemeOptionsKind(rq.uri, Some(t));
    if !UriKind(t) {
      UriOptionsKind(rq.uri, Some(t));
    }
    assert Recorded(ParseOptions(Emitted(rq)).value, Some(t)) == OfKind(Emitted(rq), Some(t));
  }

  /**
   The URI of a faithful request arrives as well: the receiver records the same host, port, path
   components and query components in order, and the same proxy scheme.
   */
  lemma UriPartsArrive(rq: CoapRequest, wire: seq<WireOption>)
    requires UriContract(rq.uri) && OptionsSent(rq, wire) && OptionsFaithful(rq)
    ensures OptionsRestored(rq, wire)
    ensures var scan := ParseOptions(DecodeAll(wire).value).value;
            && (forall t :: UriKind(t) ==> Recorded(scan, Some(t)) == OfKind(UriOptions(rq.uri), Some(t)))
            && scan.proxyUri == None && scan.proxyScheme == if rq.uri.isProxy then rq.uri.scheme else None
  {
    hide Emitted, ParseOptions, EncodeAll, DecodeAll, AllCanonical, Encodable, FieldOptions, OfKind, UriContract, OptionsFaithful,
         SchemeOptions, SchemeText;
    FaithfulRestores(rq, wire);
    EncodeAllCarries(Emitted(rq));
    EmittedCanonical(rq);
    PipelineSorts(Emitted(rq), wire);
    SortInvisibleToScan(Emitted(rq), DecodeAll(wire).value);
    var sent, scan := ParseOptions(Emitted(rq)).value, ParseOptions(DecodeAll(wire).value).value;
    forall t | UriKind(t)
      ensures Recorded(scan, Some(t)) == OfKind(UriOptions(rq.uri), Some(t))
    {
      EmittedUriParses(rq, t);
    }
    EmittedUriParses(rq, OptionType.ProxyUri);
    EmittedUriParses(rq, OptionType.ProxyScheme);
    ProxySchemeRecorded(sent, rq.uri);
  }

  // ---------------------------------------------------------------- parse, then emit

  /** The kinds that survive parsing and emission: fields and unrecognised options. */
  predicate Conserved(o: CoapOption) {
    Kind(o) == None || FieldKind(Kind(o).value)
  }

  /** The request `from_message` makes of a message, given the URI it builds. */
  function RequestOf(m: Message, uri: UriView): CoapRequest
    requires ParseOptions(m.options).Ok?
  {
    var s := ParseOptions(m.options).value;
    CoapRequest(m.code, m.data, s.additional, uri, s.fields)
  }

  lemma LeftoverOfKind(s: Scan, options: seq<CoapOption>, k: Option<OptionType>)
    requires Records(s, options)
    ensures OfKind(s.additional, k) == if k == None then OfKind(options, None) else []
  {
    hide Kind, Records, Recorded;
    LeftoverIsOther(s, options);
    FilterMembers(options, KindIs(None));
    if k == None {
      OfKindAll(s.additional, k);
    } else {
      OfKindNone(s.additional, k);
    }
  }

  lemma ParseThenEmitByKind(m: Message, uri: UriView, k: Option<OptionType>)
    requires ParseOptions(m.options).Ok? && UriContract(uri) && Emits(RequestOf(m, uri))
    requires k == None || FieldKind(k.value)
    ensures OfKind(Emitted(RequestOf(m, uri)), k) == OfKind(m.options, k)
  {
    hide ParseOptions, Emitted, Acceptable, OfKind, Emits, UriContract, FieldOptions, ListsFilled;
    ParseDecides(m.options);
    var s := ParseOptions(m.options).value;
    LeftoverOfKind(s, m.options, k);
    EmissionByKind(RequestOf(m, uri), k);
    if k.Some? {
      RecordedField(s, s.fields, k.value);
      assert Recorded(s, k) == OfKind(m.options, k);
    }
  }

  /**
   Parsing and emitting again conserves the code, the data and the options that are neither part of
   the URI nor dropped: the same within each kind and in the same order, and as a multiset over all.
   */
  lemma ParseThenEmitConserves(m: Message, uri: UriView)
    requires ParseOptions(m.options).Ok? && UriContract(uri) && Emits(RequestOf(m, uri))
    ensures
      var emitted := EmittedMessage(RequestOf(m, uri));
      && emitted.code == m.code && emitted.data == m.data
      && (forall k: Option<OptionType> :: k == None || FieldKind(k.value) ==>
            OfKind(emitted.options, k) == OfKind(m.options, k))
      && multiset(Filter(emitted.options, Conserved)) == multiset(Filter(m.options, Conserved))
  {
    hide ParseOptions, Emitted, Kind, FieldKind, Emits, UriContract;
    var emitted := Emitted(RequestOf(m, uri));
    forall k: Option<OptionType> | k == None || FieldKind(k.value)
      ensures OfKind(emitted, k) == OfKind(m.options, k)
    {
      ParseThenEmitByKind(m, uri, k);
    }
    forall o
      ensures multiset(Filter(emitted, Conserved))[o] == multiset(Filter(m.options, Conserved))[o]
    {
      FilterMultiplicity(emitted, Conserved, o);
      FilterMultiplicity(m.options, Conserved, o);
      if Conserved(o) {
        FilterMultiplicity(emitted, KindIs(Kind(o)), o);
        FilterMultiplicity(m.options, KindIs(Kind(o)), o);
        assert OfKind(emitted, Kind(o)) == OfKind(m.options, Kind(o));
      }
    }
  }
}
