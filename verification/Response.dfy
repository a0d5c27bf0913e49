/**
 Responses: the option scan of `CoapResponse::from_message`, the emission of
 `CoapResponse::into_message`, and where one does not undo the other.
 */
module Response {
  import opened Sequences
  import opened VarInt
  import opened CoapOptions
  import opened Protocol
  import opened Wire
  import opened Request

  datatype ResponseFields = ResponseFields(
    contentFormat: Option<u16>,
    maxAge: Option<u32>,
    etag: Option<Bytes>,
    echo: Option<Bytes>,
    observe: Option<u32>)

  /** The local variables of the scan; its `additional_opts` are never used and not kept. */
  datatype ResponseScan = ResponseScan(path: Option<seq<Text>>, query: Option<seq<Text>>, fields: ResponseFields)

  const EMPTY_RESPONSE_SCAN := ResponseScan(None, None, ResponseFields(None, None, None, None, None))

  /** A response keeps the options of its PDU beside its fields. */
  datatype CoapResponse = CoapResponse(
    code: MessageCode, data: Option<Bytes>, pdu: seq<CoapOption>, fields: ResponseFields, location: Option<UriView>)

  // ---------------------------------------------------------------- the scan

  function Rejected(t: OptionType): Result<ResponseScan, ConversionError> {
    Err(InvalidOptionForMessageType(t))
  }

  function ResponseStep(s: ResponseScan, o: CoapOption): Result<ResponseScan, ConversionError> {
    var f := s.fields;
    match o
    case LocationPath(v) => Ok(s.(path := Push(s.path, v)))
    case LocationQuery(v) => Ok(s.(query := Push(s.query, v)))
    case ETag(v) => if f.etag.Some? then Repeated(OptionType.ETag) else Ok(s.(fields := f.(etag := Some(v))))
    case MaxAge(v) => if f.maxAge.Some? then Repeated(OptionType.MaxAge) else Ok(s.(fields := f.(maxAge := Some(v))))
    case Observe(v) => if f.observe.Some? then Repeated(OptionType.Observe) else Ok(s.(fields := f.(observe := Some(v))))
    case IfMatch(_) => Rejected(OptionType.IfMatch)
    case IfNoneMatch => Rejected(OptionType.IfNoneMatch)
    case UriHost(_) => Rejected(OptionType.UriHost)
    case UriPort(_) => Rejected(OptionType.UriPort)
    case UriPath(_) => Rejected(OptionType.UriPath)
    case UriQuery(_) => Rejected(OptionType.UriQuery)
    case ProxyUri(_) => Rejected(OptionType.ProxyUri)
    case ProxyScheme(_) => Rejected(OptionType.ProxyScheme)
    case ContentFormat(v) =>
      if f.contentFormat.Some? then Repeated(OptionType.ContentFormat) else Ok(s.(fields := f.(contentFormat := Some(v))))
    case Accept(_) => Rejected(OptionType.Accept)
    case Size1(_) => Rejected(OptionType.Size1)
    case Size2(_) => Ok(s)
    case Block1(_) => Rejected(OptionType.Block1)
    case Block2(_) => Ok(s)
    case QBlock1(_) => Ok(s)
    case QBlock2(_) => Ok(s)
    case HopLimit(_) => Rejected(OptionType.HopLimit)
    case NoResponse(_) => Rejected(OptionType.NoResponse)
    case Echo(v) => if f.echo.Some? then Repeated(OptionType.Echo) else Ok(s.(fields := f.(echo := Some(v))))
    case RTag(_) => Ok(s)
    case Oscore(_) => Ok(s)
    case Other(_, _) => Ok(s)
  }

  function ResponseScanAll(options: seq<CoapOption>): Result<ResponseScan, ConversionError> {
    if options == [] then Ok(EMPTY_RESPONSE_SCAN) else
    var rest := ResponseScanAll(options[..|options| - 1]);
    if rest.Err? then rest else ResponseStep(rest.value, options[|options| - 1])
  }

  lemma {:induction false} ResponseScanStopsAt(options: seq<CoapOption>, i: nat)
    requires i <= |options| && ResponseScanAll(options[..i]).Err?
    ensures ResponseScanAll(options) == ResponseScanAll(options[..i])
    decreases |options|
  {
    if i < |options| {
      assert options[..|options| - 1][..i] == options[..i];
      ResponseScanStopsAt(options[..|options| - 1], i);
    } else {
      assert options[..i] == options;
    }
  }

  /** The scanning loop of `from_message`, up to the construction of the location. */
  method ScanResponse(options: seq<CoapOption>) returns (r: Result<ResponseScan, ConversionError>)
    ensures r == ResponseScanAll(options)
  {
    var scan := EMPTY_RESPONSE_SCAN;
    for i := 0 to |options|
      invariant ResponseScanAll(options[..i]) == Ok(scan)
    {
      assert options[..i + 1][..i] == options[..i];
      var step := ResponseStep(scan, options[i]);
      if step.Err? {
        ResponseScanStopsAt(options, i + 1);
        return step;
      }
      scan := step.value;
    }
    assert options[..|options|] == options;
    return Ok(scan);
  }

  // ---------------------------------------------------------------- what the scan means

  predicate ResponseNonRepeatable(t: OptionType) {
    t in {OptionType.ETag, OptionType.MaxAge, OptionType.Observe, OptionType.ContentFormat, OptionType.Echo}
  }

  predicate RequestOnly(t: OptionType) {
    t in {OptionType.IfMatch, OptionType.IfNoneMatch, OptionType.UriHost, OptionType.UriPort, OptionType.UriPath,
          OptionType.UriQuery, OptionType.ProxyUri, OptionType.ProxyScheme, OptionType.Accept, OptionType.Size1,
          OptionType.Block1, OptionType.HopLimit, OptionType.NoResponse}
  }

  predicate ResponseKept(t: OptionType) {
    ResponseNonRepeatable(t) || t == OptionType.LocationPath || t == OptionType.LocationQuery
  }

  ghost predicate ResponseAcceptable(options: seq<CoapOption>) {
    && (forall t :: ResponseNonRepeatable(t) ==> |OfKind(options, Some(t))| <= 1)
    && (forall t :: RequestOnly(t) ==> OfKind(options, Some(t)) == [])
  }

  function LocationPathOptions(l: seq<Text>): (r: seq<CoapOption>)
    ensures |r| == |l| && forall i :: 0 <= i < |l| ==> r[i] == CoapOption.LocationPath(l[i])
  {
    seq(|l|, i requires 0 <= i < |l| => CoapOption.LocationPath(l[i]))
  }

  function LocationQueryOptions(l: seq<Text>): (r: seq<CoapOption>)
    ensures |r| == |l| && forall i :: 0 <= i < |l| ==> r[i] == CoapOption.LocationQuery(l[i])
  {
    seq(|l|, i requires 0 <= i < |l| => CoapOption.LocationQuery(l[i]))
  }

  function ResponseFieldOptions(f: ResponseFields, t: OptionType): seq<CoapOption> {
    match t
    case ETag => if f.etag.Some? then [CoapOption.ETag(f.etag.value)] else []
    case MaxAge => if f.maxAge.Some? then [CoapOption.MaxAge(f.maxAge.value)] else []
    case Observe => if f.observe.Some? then [CoapOption.Observe(f.observe.value)] else []
    case ContentFormat => if f.contentFormat.Some? then [CoapOption.ContentFormat(f.contentFormat.value)] else []
    case Echo => if f.echo.Some? then [CoapOption.Echo(f.echo.value)] else []
    case _ => []
  }

  function ResponseRecorded(s: ResponseScan, t: OptionType): seq<CoapOption> {
    if t == OptionType.LocationPath then LocationPathOptions(ListOf(s.path))
    else if t == OptionType.LocationQuery then LocationQueryOptions(ListOf(s.query))
    else ResponseFieldOptions(s.fields, t)
  }

  ghost predicate ResponseRecords(s: ResponseScan, options: seq<CoapOption>) {
    && (forall t :: ResponseKept(t) ==> ResponseRecorded(s, t) == OfKind(options, Some(t)))
    && s.path != Some([]) && s.query != Some([])
  }

  lemma ResponseStepRecords(s: ResponseScan, o: CoapOption, t: OptionType)
    requires ResponseStep(s, o).Ok? && ResponseKept(t)
    ensures ResponseRecorded(ResponseStep(s, o).value, t) ==
            ResponseRecorded(s, t) + if Kind(o) == Some(t) then [o] else []
  {
    if ResponseNonRepeatable(t) {
      StepRecordsField(s, o, t);
    } else {
      StepRecordsLocation(s, o, t);
    }
  }

  lemma StepRecordsField(s: ResponseScan, o: CoapOption, t: OptionType)
    requires ResponseStep(s, o).Ok? && ResponseNonRepeatable(t)
    ensures ResponseRecorded(ResponseStep(s, o).value, t) ==
            ResponseRecorded(s, t) + if Kind(o) == Some(t) then [o] else []
  {
    hide IsUtf8, LocationPathOptions, LocationQueryOptions, Push;
  }

  lemma StepRecordsLocation(s: ResponseScan, o: CoapOption, t: OptionType)
    requires ResponseStep(s, o).Ok? && (t == OptionType.LocationPath || t == OptionType.LocationQuery)
    ensures ResponseRecorded(ResponseStep(s, o).value, t) ==
            ResponseRecorded(s, t) + if Kind(o) == Some(t) then [o] else []
  {
    hide IsUtf8, ResponseFieldOptions;
  }

  /** The complaint, if any, about an option that follows the given ones. */
  function ResponseOffence(before: seq<CoapOption>, o: CoapOption): Option<ConversionError> {
    var k := Kind(o);
    if k == None then None
    else if RequestOnly(k.value) then Some(InvalidOptionForMessageType(k.value))
    else if ResponseNonRepeatable(k.value) && OfKind(before, k) != [] then Some(NonRepeatableOptionRepeated(k.value))
    else None
  }

  lemma ResponseStepOffends(s: ResponseScan, before: seq<CoapOption>, o: CoapOption)
    requires Kind(o).Some? && ResponseKept(Kind(o).value) ==>
               ResponseRecorded(s, Kind(o).value) == OfKind(before, Kind(o))
    ensures ResponseStep(s, o).Err? <==> ResponseOffence(before, o).Some?
    ensures ResponseStep(s, o).Err? ==> ResponseOffence(before, o) == Some(ResponseStep(s, o).error)
  {
    hide IsUtf8, OfKind, LocationPathOptions, LocationQueryOptions, Push;
  }

  lemma ResponseAcceptableSnoc(init: seq<CoapOption>, o: CoapOption)
    ensures ResponseAcceptable(init + [o]) <==> ResponseAcceptable(init) && ResponseOffence(init, o) == None
  {
    hide ResponseNonRepeatable, RequestOnly, Kind;
    forall k: Option<OptionType>
      ensures OfKind(init + [o], k) == OfKind(init, k) + if Kind(o) == k then [o] else []
    {
      FilterSnoc(init, o, KindIs(k));
    }
    if ResponseAcceptable(init + [o]) {
      assert forall t :: OfKind(init, Some(t)) <= OfKind(init + [o], Some(t));
    }
    ResponseTypeClasses();
  }

  lemma ResponseTypeClasses()
    ensures forall t :: !(ResponseNonRepeatable(t) && RequestOnly(t))
  {
  }

  /** Responses are parsed from exactly the acceptable option lists; the first offence is reported otherwise. */
  lemma {:induction false} ResponseScanDecides(options: seq<CoapOption>)
    ensures ResponseScanAll(options).Ok? <==> ResponseAcceptable(options)
    ensures ResponseScanAll(options).Err? ==>
              exists i :: 0 <= i < |options| && ResponseAcceptable(options[..i])
                          && ResponseOffence(options[..i], options[i]) == Some(ResponseScanAll(options).error)
    ensures ResponseScanAll(options).Ok? ==> ResponseRecords(ResponseScanAll(options).value, options)
  {
    hide ResponseStep, ResponseOffence, ResponseRecorded, ResponseKept, Kind;
    if options == [] {
      ResponseRecordedEmpty();
    } else {
      var init, o := options[..|options| - 1], options[|options| - 1];
      assert options == init + [o];
      ResponseScanDecides(init);
      ResponseAcceptableSnoc(init, o);
      if ResponseScanAll(init).Ok? {
        var s := ResponseScanAll(init).value;
        ResponseStepOffends(s, init, o);
        if ResponseStep(s, o).Ok? {
          forall t | ResponseKept(t)
            ensures ResponseRecorded(ResponseStep(s, o).value, t) == OfKind(options, Some(t))
          {
            ResponseStepRecords(s, o, t);
            FilterSnoc(init, o, KindIs(Some(t)));
          }
          ResponseStepLists(s, o);
        }
      } else {
        var i :| 0 <= i < |init| && ResponseAcceptable(init[..i])
                 && ResponseOffence(init[..i], init[i]) == Some(ResponseScanAll(init).error);
        assert options[..i] == init[..i];
      }
    }
  }

  lemma ResponseStepLists(s: ResponseScan, o: CoapOption)
    requires ResponseStep(s, o).Ok? && s.path != Some([]) && s.query != Some([])
    ensures ResponseStep(s, o).value.path != Some([]) && ResponseStep(s, o).value.query != Some([])
  {
    hide IsUtf8;
  }

  lemma ResponseRecordedEmpty()
    ensures forall t :: ResponseRecorded(EMPTY_RESPONSE_SCAN, t) == []
  {
  }

  lemma LocationPathInjective(a: seq<Text>, b: seq<Text>)
    requires LocationPathOptions(a) == LocationPathOptions(b)
    ensures a == b
  {
    hide IsUtf8;
    assert forall i :: 0 <= i < |a| ==> LocationPathOptions(a)[i].segment == a[i];
    assert forall i :: 0 <= i < |b| ==> LocationPathOptions(b)[i].segment == b[i];
  }

  lemma LocationQueryInjective(a: seq<Text>, b: seq<Text>)
    requires LocationQueryOptions(a) == LocationQueryOptions(b)
    ensures a == b
  {
    hide IsUtf8;
    assert forall i :: 0 <= i < |a| ==> LocationQueryOptions(a)[i].component == a[i];
    assert forall i :: 0 <= i < |b| ==> LocationQueryOptions(b)[i].component == b[i];
  }

  lemma ResponseRecordsDetermine(a: ResponseScan, b: ResponseScan)
    requires a.path != Some([]) && a.query != Some([]) && b.path != Some([]) && b.query != Some([])
    requires forall t :: ResponseKept(t) ==> ResponseRecorded(a, t) == ResponseRecorded(b, t)
    ensures a == b
  {
    hide LocationPathOptions, LocationQueryOptions, ResponseFieldOptions, ResponseNonRepeatable;
    forall t | ResponseNonRepeatable(t)
      ensures ResponseFieldOptions(a.fields, t) == ResponseFieldOptions(b.fields, t)
    {
      RecordedResponseField(a, t);
      RecordedResponseField(b, t);
    }
    FieldsByKind(a.fields, b.fields);
    assert ResponseRecorded(a, OptionType.LocationPath) == ResponseRecorded(b, OptionType.LocationPath);
    assert ResponseRecorded(a, OptionType.LocationQuery) == ResponseRecorded(b, OptionType.LocationQuery);
    LocationPathInjective(ListOf(a.path), ListOf(b.path));
    LocationQueryInjective(ListOf(a.query), ListOf(b.query));
  }

  /** Ordering the options by number changes nothing about a response. */
  lemma SortInvisibleToResponseScan(a: seq<CoapOption>, b: seq<CoapOption>)
    requires IsStableSort(OptionNumber, a, b)
    ensures ResponseScanAll(a).Ok? <==> ResponseScanAll(b).Ok?
    ensures ResponseScanAll(a).Ok? ==> ResponseScanAll(b) == ResponseScanAll(a)
  {
    hide ResponseScanAll, ResponseRecorded, OfKind, ResponseNonRepeatable, RequestOnly, ResponseKept;
    forall t
      ensures OfKind(b, Some(t)) == OfKind(a, Some(t))
    {
      SortKeepsKinds(a, b, t);
    }
    ResponseScanDecides(a);
    ResponseScanDecides(b);
    assert ResponseAcceptable(a) <==> ResponseAcceptable(b);
    if ResponseAcceptable(a) {
      ResponseRecordsDetermine(ResponseScanAll(b).value, ResponseScanAll(a).value);
    }
  }

  // ---------------------------------------------------------------- emission

  /** `into_message` panics on a location that does not become options. */
  predicate ResponseEmits(r: CoapResponse) {
    r.location.Some? ==> UriDecodes(r.location.value)
  }

  function LocationOptions(r: CoapResponse): seq<CoapOption>
    requires ResponseEmits(r)
  {
    if r.location.Some? then UriOptions(r.location.value) else []
  }

  /** `into_message`: there is no emission of Echo, and a location goes out as Uri-* options. */
  function ResponseEmitted(r: CoapResponse): seq<CoapOption>
    requires ResponseEmits(r)
  {
    r.pdu + LocationOptions(r)
    + ResponseFieldOptions(r.fields, OptionType.MaxAge)
    + ResponseFieldOptions(r.fields, OptionType.ContentFormat)
    + ResponseFieldOptions(r.fields, OptionType.ETag)
    + ResponseFieldOptions(r.fields, OptionType.Observe)
  }

  function ResponseMessage(r: CoapResponse): Message
    requires ResponseEmits(r)
  {
    Message(r.code, ResponseEmitted(r), r.data)
  }

  method AddResponseFields(options: seq<CoapOption>, f: ResponseFields) returns (r: seq<CoapOption>)
    ensures r == options + ResponseFieldOptions(f, OptionType.MaxAge)
                 + ResponseFieldOptions(f, OptionType.ContentFormat)
                 + ResponseFieldOptions(f, OptionType.ETag) + ResponseFieldOptions(f, OptionType.Observe)
  {
    r := options;
    if f.maxAge.Some? {
      r := r + [CoapOption.MaxAge(f.maxAge.value)];
    }
    if f.contentFormat.Some? {
      r := r + [CoapOption.ContentFormat(f.contentFormat.value)];
    }
    if f.etag.Some? {
      r := r + [CoapOption.ETag(f.etag.value)];
    }
    if f.observe.Some? {
      r := r + [CoapOption.Observe(f.observe.value)];
    }
  }

  /** None where `into_message` panics. */
  method ResponseIntoMessage(r: CoapResponse) returns (m: Option<Message>)
    ensures m == if ResponseEmits(r) then Some(ResponseMessage(r)) else None
  {
    hide ResponseFieldOptions, UriOptions;
    var options := r.pdu;
    if r.location.Some? {
      var location := IntoOptions(r.location.value);
      if location == None {
        return None;
      }
      options := options + location.value;
    }
    assert options == r.pdu + LocationOptions(r);
    options := AddResponseFields(options, r.fields);
    return Some(Message(r.code, options, r.data));
  }

  /** What libcoap makes of a location, as of any URI. */
  ghost predicate LocationContract(r: CoapResponse) {
    r.location.Some? ==> UriContract(r.location.value)
  }

  /** When emission panics, for every location libcoap can split. */
  lemma ResponseEmitsExactly(r: CoapResponse)
    requires LocationContract(r)
    ensures ResponseEmits(r) <==>
            r.location == None
            || (r.location.value.entries.Some? && forall w :: w in r.location.value.entries.value ==> ReadableEntry(w))
  {
    hide UriDecodes, UriContract, ReadableEntry;
    if r.location.Some? {
      UriDecodesExactly(r.location.value);
    }
  }

  lemma AppendResponseField(options: seq<CoapOption>, f: ResponseFields, u: OptionType, t: OptionType)
    ensures OfKind(options + ResponseFieldOptions(f, u), Some(t)) ==
            OfKind(options, Some(t)) + if t == u then ResponseFieldOptions(f, u) else []
  {
    assert forall o :: o in ResponseFieldOptions(f, u) ==> Kind(o) == Some(u);
    hide ResponseFieldOptions, Kind;
    FilterConcat(options, ResponseFieldOptions(f, u), KindIs(Some(t)));
    if t == u {
      OfKindAll(ResponseFieldOptions(f, u), Some(t));
    } else {
      OfKindNone(ResponseFieldOptions(f, u), Some(t));
    }
  }

  predicate EmittedField(t: OptionType) {
    t in {OptionType.MaxAge, OptionType.ContentFormat, OptionType.ETag, OptionType.Observe}
  }

  lemma ResponseEmissionByKind(r: CoapResponse, t: OptionType)
    requires ResponseEmits(r)
    ensures OfKind(ResponseEmitted(r), Some(t)) ==
            OfKind(r.pdu, Some(t)) + OfKind(LocationOptions(r), Some(t))
            + if EmittedField(t) then ResponseFieldOptions(r.fields, t) else []
  {
    hide ResponseFieldOptions, LocationOptions, OfKind, ResponseEmits;
    var e0 := r.pdu + LocationOptions(r);
    var e1 := e0 + ResponseFieldOptions(r.fields, OptionType.MaxAge);
    var e2 := e1 + ResponseFieldOptions(r.fields, OptionType.ContentFormat);
    var e3 := e2 + ResponseFieldOptions(r.fields, OptionType.ETag);
    AppendResponseField(e0, r.fields, OptionType.MaxAge, t);
    AppendResponseField(e1, r.fields, OptionType.ContentFormat, t);
    AppendResponseField(e2, r.fields, OptionType.ETag, t);
    AppendResponseField(e3, r.fields, OptionType.Observe, t);
    OfKindConcat(r.pdu, LocationOptions(r), Some(t));
  }

  /** A location, once emitted, makes the message unacceptable as a response. */
  lemma LocationOfKind(r: CoapResponse, t: OptionType)
    requires LocationContract(r) && ResponseEmits(r)
    ensures !RequestOnly(t) ==> OfKind(LocationOptions(r), Some(t)) == []
    ensures LocationOptions(r) == [] ==> OfKind(LocationOptions(r), Some(t)) == []
    ensures LocationOptions(r) != [] ==>
              exists u :: RequestOnly(u) && OfKind(LocationOptions(r), Some(u)) != []
  {
    hide IsUtf8, UriOptions, UriContract, UriDecodes;
    var l := LocationOptions(r);
    if r.location.Some? {
      UriContractShape(r.location.value);
    }
    if !RequestOnly(t) {
      OfKindNone(l, Some(t));
    }
    if l != [] {
      var k := Kind(l[0]);
      FilterMembers(l, KindIs(k));
      assert l[0] in OfKind(l, k);
      assert RequestOnly(k.value);
    }
  }

  lemma EmittedFieldClasses(t: OptionType)
    ensures EmittedField(t) ==> ResponseNonRepeatable(t) && !RequestOnly(t)
    ensures ResponseNonRepeatable(t) ==> EmittedField(t) || t == OptionType.Echo
    ensures ResponseNonRepeatable(t) ==> !RequestOnly(t) && ResponseKept(t)
    ensures t == OptionType.LocationPath || t == OptionType.LocationQuery ==> ResponseKept(t) && !RequestOnly(t) && !EmittedField(t)
  {
  }

  lemma RecordedResponseField(s: ResponseScan, t: OptionType)
    requires ResponseNonRepeatable(t)
    ensures ResponseKept(t) && ResponseRecorded(s, t) == ResponseFieldOptions(s.fields, t)
    ensures |ResponseFieldOptions(s.fields, t)| <= 1
  {
    hide IsUtf8;
  }

  // ---------------------------------------------------------------- what scanning an emission gives

  /** The fields are found again, and a location exactly if there is one. */
  ghost predicate Rescanned(r: CoapResponse, options: seq<CoapOption>) {
    && ResponseScanAll(options).Ok?
    && var scan := ResponseScanAll(options).value;
       && scan.fields == r.fields
       && (scan.path == None && scan.query == None <==> r.location == None)
  }

  /** The condition for it: what the PDU holds neither clashes with the fields nor adds to them. */
  ghost predicate PduAgrees(r: CoapResponse)
    requires ResponseEmits(r)
  {
    && (forall t :: RequestOnly(t) || EmittedField(t) ==> OfKind(r.pdu, Some(t)) == [])
    && OfKind(r.pdu, Some(OptionType.Echo)) == ResponseFieldOptions(r.fields, OptionType.Echo)
    && LocationOptions(r) == []
    && (r.location == None <==>
        OfKind(r.pdu, Some(OptionType.LocationPath)) == [] && OfKind(r.pdu, Some(OptionType.LocationQuery)) == [])
  }

  /** The options of an emission by kind, split by the role of the kind. */
  lemma EmissionRoles(r: CoapResponse, t: OptionType)
    requires LocationContract(r) && ResponseEmits(r)
    ensures RequestOnly(t) ==>
              OfKind(ResponseEmitted(r), Some(t)) == OfKind(r.pdu, Some(t)) + OfKind(LocationOptions(r), Some(t))
    ensures EmittedField(t) ==>
              OfKind(ResponseEmitted(r), Some(t)) == OfKind(r.pdu, Some(t)) + ResponseFieldOptions(r.fields, t)
    ensures !RequestOnly(t) && !EmittedField(t) ==> OfKind(ResponseEmitted(r), Some(t)) == OfKind(r.pdu, Some(t))
    ensures LocationOptions(r) == [] ==> OfKind(LocationOptions(r), Some(t)) == []
  {
    hide ResponseEmitted, ResponseFieldOptions, OfKind, LocationOptions, LocationContract, ResponseEmits;
    ResponseEmissionByKind(r, t);
    LocationOfKind(r, t);
    EmittedFieldClasses(t);
  }

  /**
   An emission is accepted exactly when the PDU holds no request-only option, no location is emitted, and
   a field and the options of its kind in the PDU do not make two.
   */
  lemma ResponseEmittedParses(r: CoapResponse)
    requires LocationContract(r) && ResponseEmits(r)
    ensures ResponseScanAll(ResponseEmitted(r)).Ok? <==>
            && (forall t :: RequestOnly(t) ==> OfKind(r.pdu, Some(t)) == [])
            && LocationOptions(r) == []
            && (forall t :: EmittedField(t) ==> |OfKind(r.pdu, Some(t))| + |ResponseFieldOptions(r.fields, t)| <= 1)
            && |OfKind(r.pdu, Some(OptionType.Echo))| <= 1
  {
    hide ResponseEmitted, ResponseFieldOptions, OfKind, LocationOptions, LocationContract, ResponseEmits, ResponseScanAll,
         ResponseNonRepeatable, RequestOnly, EmittedField, ResponseRecords;
    ResponseScanDecides(ResponseEmitted(r));
    forall t
      ensures RequestOnly(t) ==>
                OfKind(ResponseEmitted(r), Some(t)) == OfKind(r.pdu, Some(t)) + OfKind(LocationOptions(r), Some(t))
      ensures EmittedField(t) ==>
                OfKind(ResponseEmitted(r), Some(t)) == OfKind(r.pdu, Some(t)) + ResponseFieldOptions(r.fields, t)
      ensures t == OptionType.Echo ==>
                ResponseNonRepeatable(t) && OfKind(ResponseEmitted(r), Some(t)) == OfKind(r.pdu, Some(t))
      ensures ResponseNonRepeatable(t) <==> EmittedField(t) || t == OptionType.Echo
      ensures LocationOptions(r) == [] ==> OfKind(LocationOptions(r), Some(t)) == []
    {
      EmissionRoles(r, t);
      EmittedFieldClasses(t);
      EchoIsNotEmitted();
    }
    LocationOfKind(r, OptionType.Echo);
  }

  lemma FieldsByKind(a: ResponseFields, b: ResponseFields)
    ensures a == b <==> forall t :: ResponseNonRepeatable(t) ==> ResponseFieldOptions(a, t) == ResponseFieldOptions(b, t)
  {
    hide IsUtf8;
    if forall t :: ResponseNonRepeatable(t) ==> ResponseFieldOptions(a, t) == ResponseFieldOptions(b, t) {
      assert ResponseFieldOptions(a, OptionType.ETag) == ResponseFieldOptions(b, OptionType.ETag);
      assert ResponseFieldOptions(a, OptionType.MaxAge) == ResponseFieldOptions(b, OptionType.MaxAge);
      assert ResponseFieldOptions(a, OptionType.Observe) == ResponseFieldOptions(b, OptionType.Observe);
      assert ResponseFieldOptions(a, OptionType.ContentFormat) == ResponseFieldOptions(b, OptionType.ContentFormat);
      assert ResponseFieldOptions(a, OptionType.Echo) == ResponseFieldOptions(b, OptionType.Echo);
    }
  }

  /** What an accepted emission records, in terms of the response. */
  lemma ScanOfEmission(r: CoapResponse)
    requires LocationContract(r) && ResponseEmits(r) && ResponseScanAll(ResponseEmitted(r)).Ok?
    ensures var scan := ResponseScanAll(ResponseEmitted(r)).value;
            && (scan.fields == r.fields <==>
                (forall t :: EmittedField(t) ==> OfKind(r.pdu, Some(t)) == [])
                && OfKind(r.pdu, Some(OptionType.Echo)) == ResponseFieldOptions(r.fields, OptionType.Echo))
            && (scan.path == None <==> OfKind(r.pdu, Some(OptionType.LocationPath)) == [])
            && (scan.query == None <==> OfKind(r.pdu, Some(OptionType.LocationQuery)) == [])
  {
    hide ResponseEmitted, ResponseFieldOptions, OfKind, LocationOptions, LocationContract, ResponseEmits, ResponseScanAll,
         ResponseNonRepeatable, RequestOnly, EmittedField, ResponseKept, ResponseAcceptable;
    var scan := ResponseScanAll(ResponseEmitted(r)).value;
    ResponseScanDecides(ResponseEmitted(r));
    forall t | ResponseNonRepeatable(t)
      ensures ResponseFieldOptions(scan.fields, t)
              == OfKind(r.pdu, Some(t)) + if EmittedField(t) then ResponseFieldOptions(r.fields, t) else []
      ensures ResponseFieldOptions(scan.fields, t) == ResponseFieldOptions(r.fields, t) <==>
              if EmittedField(t) then OfKind(r.pdu, Some(t)) == []
              else OfKind(r.pdu, Some(t)) == ResponseFieldOptions(r.fields, t)
      ensures EmittedField(t) || t == OptionType.Echo
    {
      RecordedResponseField(scan, t);
      EmissionRoles(r, t);
      EmittedFieldClasses(t);
    }
    forall t
      ensures EmittedField(t) ==> ResponseNonRepeatable(t)
      ensures t == OptionType.Echo ==> ResponseNonRepeatable(t) && !EmittedField(t)
    {
      EmittedFieldClasses(t);
      EchoIsNotEmitted();
    }
    FieldsByKind(scan.fields, r.fields);
    RecordedLocation(scan, r);
  }

  lemma EchoIsNotEmitted()
    ensures ResponseNonRepeatable(OptionType.Echo) && !EmittedField(OptionType.Echo)
  {
  }

  lemma RecordedLocation(scan: ResponseScan, r: CoapResponse)
    requires LocationContract(r) && ResponseEmits(r) && ResponseRecords(scan, ResponseEmitted(r))
    ensures scan.path == None <==> OfKind(r.pdu, Some(OptionType.LocationPath)) == []
    ensures scan.query == None <==> OfKind(r.pdu, Some(OptionType.LocationQuery)) == []
  {
    hide ResponseEmitted, OfKind, LocationOptions, LocationContract, ResponseEmits;
    EmissionRoles(r, OptionType.LocationPath);
    EmissionRoles(r, OptionType.LocationQuery);
    assert ResponseRecorded(scan, OptionType.LocationPath) == OfKind(r.pdu, Some(OptionType.LocationPath));
    assert ResponseRecorded(scan, OptionType.LocationQuery) == OfKind(r.pdu, Some(OptionType.LocationQuery));
  }

  /** Scanning an emission finds the response again exactly when its PDU agrees with the rest of it. */
  lemma EmissionRescans(r: CoapResponse)
    requires LocationContract(r) && ResponseEmits(r)
    ensures Rescanned(r, ResponseEmitted(r)) <==> PduAgrees(r)
  {
    hide ResponseEmitted, ResponseFieldOptions, OfKind, LocationOptions, LocationContract, ResponseEmits, ResponseScanAll,
         ResponseNonRepeatable, RequestOnly, EmittedField, ResponseRecords;
    ResponseEmittedParses(r);
    forall t
      ensures EmittedField(t) || t == OptionType.Echo ==> |ResponseFieldOptions(r.fields, t)| <= 1
    {
      EmittedFieldClasses(t);
      EchoIsNotEmitted();
      if ResponseNonRepeatable(t) {
        RecordedResponseField(ResponseScan(None, None, r.fields), t);
      }
    }
    if ResponseScanAll(ResponseEmitted(r)).Ok? {
      ScanOfEmission(r);
    }
  }

  /** The response that `from_message` makes of a message, given the location it builds. */
  function ResponseOf(m: Message, location: Option<UriView>): CoapResponse
    requires ResponseScanAll(m.options).Ok?
  {
    CoapResponse(m.code, m.data, m.options, ResponseScanAll(m.options).value.fields, location)
  }

  /** For a parsed response: everything recorded is in its PDU as well. */
  lemma ParsedKinds(m: Message, location: Option<UriView>, t: OptionType)
    requires ResponseScanAll(m.options).Ok?
    ensures RequestOnly(t) ==> OfKind(m.options, Some(t)) == []
    ensures ResponseNonRepeatable(t) ==>
              OfKind(m.options, Some(t)) == ResponseFieldOptions(ResponseOf(m, location).fields, t)
  {
    hide ResponseScanAll, ResponseFieldOptions, OfKind, ResponseNonRepeatable, RequestOnly, ResponseKept;
    ResponseScanDecides(m.options);
    if ResponseNonRepeatable(t) {
      RecordedResponseField(ResponseScanAll(m.options).value, t);
    }
  }

  /**
   Because parsing leaves the options in the PDU, emitting a parsed response repeats them: the
   result parses again exactly when there was nothing to repeat.
   */
  lemma ReemissionParses(m: Message, location: Option<UriView>)
    requires ResponseScanAll(m.options).Ok?
    requires LocationContract(ResponseOf(m, location)) && ResponseEmits(ResponseOf(m, location))
    ensures
      ResponseScanAll(ResponseEmitted(ResponseOf(m, location))).Ok? <==>
      && (forall t :: EmittedField(t) ==> OfKind(m.options, Some(t)) == [])
      && LocationOptions(ResponseOf(m, location)) == []
    ensures var e := ResponseMessage(ResponseOf(m, location));
            e.code == m.code && e.data == m.data && m.options <= e.options
  {
    AddedCanonical(ResponseOf(m, location));
    hide ResponseScanAll, ResponseFieldOptions, ResponseEmitted, OfKind, ResponseKept, LocationOptions, LocationContract,
         ResponseEmits, ResponseNonRepeatable, RequestOnly, EmittedField, ResponseRecords;
    var r := ResponseOf(m, location);
    ResponseEmittedParses(r);
    forall t
      ensures RequestOnly(t) ==> OfKind(m.options, Some(t)) == []
      ensures EmittedField(t) ==> OfKind(m.options, Some(t)) == ResponseFieldOptions(r.fields, t)
      ensures EmittedField(t) || t == OptionType.Echo ==> |OfKind(m.options, Some(t))| <= 1
    {
      ParsedKinds(m, location, t);
      EmittedFieldClasses(t);
      EchoIsNotEmitted();
      if ResponseNonRepeatable(t) {
        RecordedResponseField(ResponseScanAll(m.options).value, t);
      }
    }
  }

  // ---------------------------------------------------------------- end to end

  /** What emission adds to the options of the PDU. */
  function AddedOptions(r: CoapResponse): seq<CoapOption>
    requires ResponseEmits(r)
  {
    LocationOptions(r)
    + ResponseFieldOptions(r.fields, OptionType.MaxAge)
    + ResponseFieldOptions(r.fields, OptionType.ContentFormat)
    + ResponseFieldOptions(r.fields, OptionType.ETag)
    + ResponseFieldOptions(r.fields, OptionType.Observe)
  }

  lemma AddedCanonical(r: CoapResponse)
    requires LocationContract(r) && ResponseEmits(r)
    ensures ResponseEmitted(r) == r.pdu + AddedOptions(r)
    ensures AllCanonical(AddedOptions(r))
  {
    hide IsUtf8, TypeOfNumber, UriOptions, UriDecodes, UriContract;
    if r.location.Some? {
      UriContractShape(r.location.value);
    }
    forall o | o in AddedOptions(r)
      ensures Canonical(o)
    {
      if o !in LocationOptions(r) {
        assert o.MaxAge? || o.ContentFormat? || o.ETag? || o.Observe?;
      }
    }
  }

  /** The receiver sees the emission of the response with its PDU as seen through the wire. */
  lemma SeenEmission(r: CoapResponse)
    requires LocationContract(r) && ResponseEmits(r) && EncodeAll(ResponseEmitted(r)).Ok?
    ensures EncodeAll(r.pdu).Ok?
    ensures Seen(ResponseEmitted(r)).Value? <==> Seen(r.pdu).Value?
    ensures Seen(r.pdu).Value? ==> Seen(ResponseEmitted(r)).value == ResponseEmitted(r.(pdu := Seen(r.pdu).value))
  {
    hide EncodeAll, Seen, ResponseEmitted, AddedOptions, LocationContract, UriDecodes;
    AddedCanonical(r);
    SeenConcat(r.pdu, AddedOptions(r));
    SeenAsIs(AddedOptions(r));
    if Seen(r.pdu).Value? {
      var seen := r.(pdu := Seen(r.pdu).value);
      SameAdded(r, seen);
      AddedCanonical(seen);
    }
  }

  lemma SameAdded(r: CoapResponse, q: CoapResponse)
    requires ResponseEmits(r) && LocationContract(r) && q == r.(pdu := q.pdu)
    ensures ResponseEmits(q) && LocationContract(q) && AddedOptions(q) == AddedOptions(r)
  {
  }

  /** The receiver of `pdu` sees the response: code, data, fields, and a location exactly if it has one. */
  ghost predicate ResponseRestores(r: CoapResponse, pdu: Pdu) {
    && FromRawPdu(pdu).Value?
    && FromRawPdu(pdu).value.code == r.code
    && FromRawPdu(pdu).value.data == r.data
    && Rescanned(r, FromRawPdu(pdu).value.options)
  }

  /** A response whose code and data survive the wire. */
  predicate HeaderSurvives(r: CoapResponse) {
    r.code != RequestCode(Delete) && r.data != Some([])
  }

  /**
   End to end, for every response that can be sent: its receiver restores it if and only if its code
   and data survive, the options of its PDU can be read, and what is read of them neither clashes with
   the fields nor adds to them.
   */
  lemma ResponseRoundTrip(r: CoapResponse, pdu: Pdu)
    requires LocationContract(r) && ResponseEmits(r) && SentAs(ResponseMessage(r), pdu)
    ensures EncodeAll(r.pdu).Ok?
    ensures ResponseRestores(r, pdu) <==>
            HeaderSurvives(r) && Seen(r.pdu).Value? && PduAgrees(r.(pdu := Seen(r.pdu).value))
  {
    hide EncodeAll, DecodeAll, Seen, ResponseEmitted, ResponseScanAll, PduAgrees, LocationContract;
    SeenEmission(r);
    MessageArrives(ResponseMessage(r), pdu);
    CodeRoundTrip(r.code);
    if Seen(r.pdu).Value? {
      var seen := r.(pdu := Seen(r.pdu).value);
      SameAdded(r, seen);
      EmissionRescans(seen);
      SortInvisibleToResponseScan(ResponseEmitted(seen), FromRawPdu(pdu).value.options);
    }
  }

  /** For responses with options of their own only under unregistered numbers: neither Echo nor location. */
  lemma OwnResponseRoundTrip(r: CoapResponse, pdu: Pdu)
    requires LocationContract(r) && ResponseEmits(r) && SentAs(ResponseMessage(r), pdu)
    requires forall o :: o in r.pdu ==> Unregistered(o)
    ensures ResponseRestores(r, pdu) <==> HeaderSurvives(r) && r.fields.echo == None && r.location == None
  {
    hide EncodeAll, DecodeAll, Seen, ResponseEmitted, ResponseScanAll, OfKind, LocationContract, ResponseRestores, SentAs,
         TypeOfNumber, RequestOnly, EmittedField, ResponseEmits;
    ResponseRoundTrip(r, pdu);
    SeenAsIs(r.pdu);
    assert r.(pdu := r.pdu) == r;
    forall t
      ensures OfKind(r.pdu, Some(t)) == []
    {
      UnregisteredOfKind(r.pdu, t);
    }
    if r.location == None {
      NoLocationNoOptions(r);
    }
  }

  lemma NoLocationNoOptions(r: CoapResponse)
    requires r.location == None
    ensures ResponseEmits(r) && LocationOptions(r) == []
  {
  }

  lemma UnregisteredOfKind(options: seq<CoapOption>, t: OptionType)
    requires forall o :: o in options ==> Unregistered(o)
    ensures OfKind(options, Some(t)) == []
  {
    hide TypeOfNumber;
    assert forall o :: o in options ==> Kind(o) == None;
    OfKindNone(options, Some(t));
  }

  /**
   For responses that were received, parsed and sent on: exactly those without any of the four emitted
   fields and without location options come back, because their PDU still holds what it came with.
   */
  lemma ForwardedResponseRoundTrip(received: Pdu, location: Option<UriView>, pdu: Pdu)
    requires FromRawPdu(received).Value? && ResponseScanAll(FromRawPdu(received).value.options).Ok?
    requires var m := FromRawPdu(received).value;
             var r := ResponseOf(m, location);
             && LocationContract(r) && ResponseEmits(r) && SentAs(ResponseMessage(r), pdu)
             && (location == None <==>
                 ResponseScanAll(m.options).value.path == None && ResponseScanAll(m.options).value.query == None)
    ensures var m := FromRawPdu(received).value;
            ResponseRestores(ResponseOf(m, location), pdu) <==>
            && m.code != RequestCode(Delete)
            && (forall t :: EmittedField(t) ==> OfKind(m.options, Some(t)) == [])
            && LocationOptions(ResponseOf(m, location)) == []
  {
    hide EncodeAll, DecodeAll, Seen, ResponseEmitted, ResponseScanAll, OfKind, LocationContract, ResponseRestores, SentAs,
         ResponseEmits, RequestOnly, EmittedField, ResponseFieldOptions, FromRawPduCode, AllCanonical;
    var m := FromRawPdu(received).value;
    var r := ResponseOf(m, location);
    ResponseRoundTrip(r, pdu);
    DecodedIsCanonical(received.options);
    SeenAsIs(m.options);
    assert r.(pdu := m.options) == r;
    ParsedAgrees(m, location);
  }

  lemma ParsedAgrees(m: Message, location: Option<UriView>)
    requires ResponseScanAll(m.options).Ok? && ResponseEmits(ResponseOf(m, location))
    requires location == None <==>
               ResponseScanAll(m.options).value.path == None && ResponseScanAll(m.options).value.query == None
    ensures PduAgrees(ResponseOf(m, location)) <==>
            && (forall t :: EmittedField(t) ==> OfKind(m.options, Some(t)) == [])
            && LocationOptions(ResponseOf(m, location)) == []
  {
    hide ResponseScanAll, OfKind, ResponseEmits, RequestOnly, EmittedField, ResponseFieldOptions, LocationOptions,
         ResponseAcceptable;
    forall t
      ensures RequestOnly(t) ==> OfKind(m.options, Some(t)) == []
      ensures t == OptionType.Echo ==> OfKind(m.options, Some(t)) == ResponseFieldOptions(ResponseOf(m, location).fields, t)
    {
      EchoIsNotEmitted();
      ParsedKinds(m, location, t);
    }
    ResponseScanDecides(m.options);
    var scan := ResponseScanAll(m.options).value;
    assert ResponseRecorded(scan, OptionType.LocationPath) == OfKind(m.options, Some(OptionType.LocationPath));
    assert ResponseRecorded(scan, OptionType.LocationQuery) == OfKind(m.options, Some(OptionType.LocationQuery));
  }
}
