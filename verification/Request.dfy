/**
 Requests: the option scan of `CoapRequest::from_message`, the emission of
 `CoapRequest::into_message`, and what a request keeps on its way from one to the other.
 */
module Request {
  import opened Sequences
  import opened VarInt
  import opened CoapOptions
  import opened UriScheme
  import opened Protocol
  import opened Wire

  // ---------------------------------------------------------------- data

  /** The option fields of a request other than its URI. */
  datatype Fields = Fields(
    accept: Option<u16>,
    etag: Option<seq<Bytes>>,
    ifMatch: Option<seq<CoapMatch>>,
    contentFormat: Option<u16>,
    ifNoneMatch: bool,
    hopLimit: Option<u16>,
    noResponse: Option<byte>,
    observe: Option<u32>)

  const NO_FIELDS := Fields(None, None, None, None, false, None, None, None)

  /** The local variables of the option scan. */
  datatype Scan = Scan(
    host: Option<Text>,
    port: Option<u16>,
    path: Option<seq<Text>>,
    query: Option<seq<Text>>,
    proxyScheme: Option<Scheme>,
    proxyUri: Option<Text>,
    fields: Fields,
    additional: seq<CoapOption>)

  const EMPTY_SCAN := Scan(None, None, None, None, None, None, NO_FIELDS, [])

  datatype ConversionError =
    | NonRepeatableOptionRepeated(option: OptionType)
    | InvalidOptionForMessageType(option: OptionType)
    | NotACoapUri(scheme: Text)
    | InvalidOptionCombination(first: OptionType, second: OptionType)
    | InvalidUri

  /** A URI object: `entries` is the option list libcoap makes of it, None if libcoap reports a failure. */
  datatype UriView = UriView(isProxy: bool, scheme: Option<Scheme>, entries: Option<seq<WireOption>>)

  datatype CoapRequest = CoapRequest(
    code: MessageCode, data: Option<Bytes>, extra: seq<CoapOption>, uri: UriView, fields: Fields)

  // ---------------------------------------------------------------- the scan

  function Push<T>(list: Option<seq<T>>, x: T): Option<seq<T>> {
    if list == None then Some([x]) else Some(list.value + [x])
  }

  function Repeated<T>(t: OptionType): Result<T, ConversionError> {
    Err(NonRepeatableOptionRepeated(t))
  }

  /** One iteration of the scan. */
  function ScanStep(s: Scan, o: CoapOption): Result<Scan, ConversionError> {
    var f := s.fields;
    match o
    case IfMatch(v) => Ok(s.(fields := f.(ifMatch := Push(f.ifMatch, v))))
    case IfNoneMatch =>
      if f.ifNoneMatch then Repeated(OptionType.IfNoneMatch) else Ok(s.(fields := f.(ifNoneMatch := true)))
    case UriHost(v) => if s.host.Some? then Repeated(OptionType.UriHost) else Ok(s.(host := Some(v)))
    case UriPort(v) => if s.port.Some? then Repeated(OptionType.UriPort) else Ok(s.(port := Some(v)))
    case UriPath(v) => Ok(s.(path := Push(s.path, v)))
    case UriQuery(v) => Ok(s.(query := Push(s.query, v)))
    case LocationPath(_) => Err(InvalidOptionForMessageType(OptionType.LocationPath))
    case LocationQuery(_) => Err(InvalidOptionForMessageType(OptionType.LocationQuery))
    case ProxyUri(v) =>
      if s.proxyUri.Some? then Repeated(OptionType.ProxyUri) else Ok(s.(proxyUri := Some(v)))
    case ProxyScheme(v) =>
      if s.proxyScheme.Some? then Repeated(OptionType.ProxyScheme)
      else if SchemeFromText(v) == None then Err(NotACoapUri(v))
      else Ok(s.(proxyScheme := SchemeFromText(v)))
    case ContentFormat(v) =>
      if f.contentFormat.Some? then Repeated(OptionType.ContentFormat)
      else Ok(s.(fields := f.(contentFormat := Some(v))))
    case Accept(v) =>
      if f.accept.Some? then Repeated(OptionType.Accept) else Ok(s.(fields := f.(accept := Some(v))))
    case Size1(_) => Ok(s)
    case Size2(_) => Err(InvalidOptionForMessageType(OptionType.Size2))
    case Block1(_) => Ok(s)
    case Block2(_) => Err(InvalidOptionForMessageType(OptionType.Block2))
    case QBlock1(_) => Ok(s)
    case QBlock2(_) => Ok(s)
    case HopLimit(v) =>
      if f.hopLimit.Some? then Repeated(OptionType.HopLimit) else Ok(s.(fields := f.(hopLimit := Some(v))))
    case NoResponse(v) =>
      if f.noResponse.Some? then Repeated(OptionType.NoResponse) else Ok(s.(fields := f.(noResponse := Some(v))))
    case ETag(v) => Ok(s.(fields := f.(etag := Push(f.etag, v))))
    case MaxAge(_) => Err(InvalidOptionForMessageType(OptionType.MaxAge))
    // A repeated Observe is reported under the name of Max-Age.
    case Observe(v) =>
      if f.observe.Some? then Repeated(OptionType.MaxAge) else Ok(s.(fields := f.(observe := Some(v))))
    case Echo(_) => Ok(s)
    case RTag(_) => Ok(s)
    case Oscore(_) => Ok(s)
    case Other(_, _) => Ok(s.(additional := s.additional + [o]))
  }

  function ScanAll(options: seq<CoapOption>): Result<Scan, ConversionError> {
    if options == [] then Ok(EMPTY_SCAN) else
    var rest := ScanAll(options[..|options| - 1]);
    if rest.Err? then rest else ScanStep(rest.value, options[|options| - 1])
  }

  lemma {:induction false} ScanStopsAt(options: seq<CoapOption>, i: nat)
    requires i <= |options| && ScanAll(options[..i]).Err?
    ensures ScanAll(options) == ScanAll(options[..i])
    decreases |options|
  {
    if i < |options| {
      assert options[..|options| - 1][..i] == options[..i];
      ScanStopsAt(options[..|options| - 1], i);
    } else {
      assert options[..i] == options;
    }
  }

  function ParseOptions(options: seq<CoapOption>): Result<Scan, ConversionError> {
    var s := ScanAll(options);
    if s.Ok? && s.value.proxyScheme.Some? && s.value.proxyUri.Some? then
      Err(InvalidOptionCombination(OptionType.ProxyScheme, OptionType.ProxyUri))
    else s
  }

  /** The scanning loop of `from_message`, up to the construction of the URI. */
  method ScanOptions(options: seq<CoapOption>) returns (r: Result<Scan, ConversionError>)
    ensures r == ParseOptions(options)
  {
    var scan := EMPTY_SCAN;
    for i := 0 to |options|
      invariant ScanAll(options[..i]) == Ok(scan)
    {
      assert options[..i + 1][..i] == options[..i];
      var step := ScanStep(scan, options[i]);
      if step.Err? {
        ScanStopsAt(options, i + 1);
        return step;
      }
      scan := step.value;
    }
    assert options[..|options|] == options;
    if scan.proxyScheme.Some? && scan.proxyUri.Some? {
      return Err(InvalidOptionCombination(OptionType.ProxyScheme, OptionType.ProxyUri));
    }
    return Ok(scan);
  }

  // ---------------------------------------------------------------- what the scan means

  function KindIs(k: Option<OptionType>): CoapOption -> bool {
    o => Kind(o) == k
  }

  /** The options of one kind, in order of occurrence. */
  function OfKind(options: seq<CoapOption>, k: Option<OptionType>): seq<CoapOption> {
    Filter(options, KindIs(k))
  }

  lemma OfKindAll(options: seq<CoapOption>, k: Option<OptionType>)
    requires forall o :: o in options ==> Kind(o) == k
    ensures OfKind(options, k) == options
  {
    hide Kind;
    FilterAllOrNone(options, KindIs(k));
  }

  lemma OfKindNone(options: seq<CoapOption>, k: Option<OptionType>)
    requires forall o :: o in options ==> Kind(o) != k
    ensures OfKind(options, k) == []
  {
    hide Kind;
    FilterAllOrNone(options, KindIs(k));
  }

  lemma OfKindConcat(a: seq<CoapOption>, b: seq<CoapOption>, k: Option<OptionType>)
    ensures OfKind(a + b, k) == OfKind(a, k) + OfKind(b, k)
  {
    FilterConcat(a, b, KindIs(k));
  }

  predicate NonRepeatable(t: OptionType) {
    t in {OptionType.IfNoneMatch, OptionType.UriHost, OptionType.UriPort, OptionType.ProxyUri,
          OptionType.ProxyScheme, OptionType.ContentFormat, OptionType.Accept, OptionType.HopLimit,
          OptionType.NoResponse, OptionType.Observe}
  }

  predicate ResponseOnly(t: OptionType) {
    t in {OptionType.LocationPath, OptionType.LocationQuery, OptionType.Size2, OptionType.Block2,
          OptionType.MaxAge}
  }

  /** Options libcoap deals with itself; the scan drops them. */
  predicate Dropped(t: OptionType) {
    t in {OptionType.Size1, OptionType.Block1, OptionType.QBlock1, OptionType.QBlock2, OptionType.Echo,
          OptionType.RTag, OptionType.Oscore}
  }

  predicate Kept(k: Option<OptionType>) {
    k == None || !Dropped(k.value)
  }

  predicate BadScheme(o: CoapOption) {
    o.ProxyScheme? && SchemeFromText(o.scheme) == None
  }

  /** Which option lists make a request (sections 5.4.5 and 5.10 of RFC 7252). */
  ghost predicate Scannable(options: seq<CoapOption>) {
    && (forall t :: NonRepeatable(t) ==> |OfKind(options, Some(t))| <= 1)
    && (forall t :: ResponseOnly(t) ==> OfKind(options, Some(t)) == [])
    && (forall o :: o in options ==> !BadScheme(o))
  }

  ghost predicate Acceptable(options: seq<CoapOption>) {
    && Scannable(options)
    && (OfKind(options, Some(OptionType.ProxyUri)) == [] || OfKind(options, Some(OptionType.ProxyScheme)) == [])
  }

  function IfMatchOptions(l: seq<CoapMatch>): (r: seq<CoapOption>)
    ensures |r| == |l| && forall i :: 0 <= i < |l| ==> r[i] == CoapOption.IfMatch(l[i])
  {
    seq(|l|, i requires 0 <= i < |l| => CoapOption.IfMatch(l[i]))
  }

  function ETagOptions(l: seq<Bytes>): (r: seq<CoapOption>)
    ensures |r| == |l| && forall i :: 0 <= i < |l| ==> r[i] == CoapOption.ETag(l[i])
  {
    seq(|l|, i requires 0 <= i < |l| => CoapOption.ETag(l[i]))
  }

  function PathOptions(l: seq<Text>): (r: seq<CoapOption>)
    ensures |r| == |l| && forall i :: 0 <= i < |l| ==> r[i] == CoapOption.UriPath(l[i])
  {
    seq(|l|, i requires 0 <= i < |l| => CoapOption.UriPath(l[i]))
  }

  function QueryOptions(l: seq<Text>): (r: seq<CoapOption>)
    ensures |r| == |l| && forall i :: 0 <= i < |l| ==> r[i] == CoapOption.UriQuery(l[i])
  {
    seq(|l|, i requires 0 <= i < |l| => CoapOption.UriQuery(l[i]))
  }

  function ListOf<T>(l: Option<seq<T>>): seq<T> {
    if l == None then [] else l.value
  }

  /** The options a request field stands for. */
  function FieldOptions(f: Fields, t: OptionType): seq<CoapOption> {
    match t
    case IfMatch => IfMatchOptions(ListOf(f.ifMatch))
    case ETag => ETagOptions(ListOf(f.etag))
    case IfNoneMatch => if f.ifNoneMatch then [CoapOption.IfNoneMatch] else []
    case ContentFormat => if f.contentFormat.Some? then [CoapOption.ContentFormat(f.contentFormat.value)] else []
    case Accept => if f.accept.Some? then [CoapOption.Accept(f.accept.value)] else []
    case HopLimit => if f.hopLimit.Some? then [CoapOption.HopLimit(f.hopLimit.value)] else []
    case NoResponse => if f.noResponse.Some? then [CoapOption.NoResponse(f.noResponse.value)] else []
    case Observe => if f.observe.Some? then [CoapOption.Observe(f.observe.value)] else []
    case _ => []
  }

  /** The options the scan has recorded under one kind. */
  function Recorded(s: Scan, k: Option<OptionType>): seq<CoapOption> {
    if k == None then s.additional else
    match k.value
    case UriHost => if s.host.Some? then [CoapOption.UriHost(s.host.value)] else []
    case UriPort => if s.port.Some? then [CoapOption.UriPort(s.port.value)] else []
    case UriPath => PathOptions(ListOf(s.path))
    case UriQuery => QueryOptions(ListOf(s.query))
    case ProxyScheme => if s.proxyScheme.Some? then [CoapOption.ProxyScheme(SchemeText(s.proxyScheme.value))] else []
    case ProxyUri => if s.proxyUri.Some? then [CoapOption.ProxyUri(s.proxyUri.value)] else []
    case _ => FieldOptions(s.fields, k.value)
  }

  predicate Listed(o: CoapOption) {
    o.IfMatch? || o.ETag? || o.UriPath? || o.UriQuery?
  }

  lemma StepRecordsListed(s: Scan, o: CoapOption)
    requires ScanStep(s, o).Ok? && Listed(o)
    ensures Recorded(ScanStep(s, o).value, Kind(o)) == Recorded(s, Kind(o)) + [o]
  {
    hide IsUtf8, SchemeText, SchemeFromText;
  }

  lemma StepRecordsOwnKind(s: Scan, o: CoapOption)
    requires ScanStep(s, o).Ok? && Kept(Kind(o))
    ensures Recorded(ScanStep(s, o).value, Kind(o)) == Recorded(s, Kind(o)) + [o]
  {
    hide IsUtf8, SchemeText, SchemeFromText, IfMatchOptions, ETagOptions, PathOptions, QueryOptions, Push;
    if Listed(o) {
      StepRecordsListed(s, o);
    } else if o.ProxyScheme? {
      SchemeRoundTrip(SchemeFromText(o.scheme).value, o.scheme);
    }
  }

  lemma StepKeepsOtherKinds(s: Scan, o: CoapOption, k: Option<OptionType>)
    requires ScanStep(s, o).Ok? && k != Kind(o)
    ensures Recorded(ScanStep(s, o).value, k) == Recorded(s, k)
  {
    hide IsUtf8, SchemeText, SchemeFromText, IfMatchOptions, ETagOptions, PathOptions, QueryOptions, Push;
  }

  lemma StepFillsLists(s: Scan, o: CoapOption)
    requires ScanStep(s, o).Ok? && ListsFilled(s)
    ensures ListsFilled(ScanStep(s, o).value)
  {
    hide IsUtf8, SchemeText, SchemeFromText;
  }

  /** The complaint, if any, about an option that follows the given ones. */
  function Offence(before: seq<CoapOption>, o: CoapOption): Option<ConversionError> {
    var k := Kind(o);
    if k == None then None
    else if ResponseOnly(k.value) then Some(InvalidOptionForMessageType(k.value))
    else if NonRepeatable(k.value) && OfKind(before, k) != [] then
      Some(NonRepeatableOptionRepeated(if o.Observe? then OptionType.MaxAge else k.value))
    else if BadScheme(o) then Some(NotACoapUri(o.scheme))
    else None
  }

  lemma StepOffends(s: Scan, before: seq<CoapOption>, o: CoapOption)
    requires Recorded(s, Kind(o)) == OfKind(before, Kind(o)) || (Kind(o).Some? && Dropped(Kind(o).value))
    ensures ScanStep(s, o).Err? <==> Offence(before, o).Some?
    ensures ScanStep(s, o).Err? ==> Offence(before, o) == Some(ScanStep(s, o).error)
  {
    hide IsUtf8, SchemeText, SchemeFromText, OfKind, Recorded, ScanStep, NonRepeatable, ResponseOnly, Kind, BadScheme;
    TypeClasses();
    if Kind(o).Some? && NonRepeatable(Kind(o).value) {
      RepeatRefused(s, o);
    } else {
      OnlyKindRefused(s, o);
    }
  }

  lemma RepeatRefused(s: Scan, o: CoapOption)
    requires Kind(o).Some? && NonRepeatable(Kind(o).value)
    ensures !Dropped(Kind(o).value)
    ensures ScanStep(s, o).Err? <==> Recorded(s, Kind(o)) != [] || BadScheme(o)
    ensures Recorded(s, Kind(o)) != [] ==>
              ScanStep(s, o) == Err(NonRepeatableOptionRepeated(if o.Observe? then OptionType.MaxAge else Kind(o).value))
    ensures Recorded(s, Kind(o)) == [] && BadScheme(o) ==> ScanStep(s, o) == Err(NotACoapUri(o.scheme))
  {
    hide IsUtf8, SchemeText, SchemeFromText, IfMatchOptions, ETagOptions, PathOptions, QueryOptions, Push;
  }

  lemma OnlyKindRefused(s: Scan, o: CoapOption)
    requires Kind(o).Some? ==> !NonRepeatable(Kind(o).value)
    ensures !BadScheme(o)
    ensures ScanStep(s, o).Err? <==> Kind(o).Some? && ResponseOnly(Kind(o).value)
    ensures ScanStep(s, o).Err? ==> ScanStep(s, o) == Err(InvalidOptionForMessageType(Kind(o).value))
  {
    hide IsUtf8, SchemeText, SchemeFromText, Recorded, Push;
  }

  /** A list field is absent rather than empty. */
  predicate ListsFilled(s: Scan) {
    s.path != Some([]) && s.query != Some([]) && s.fields.etag != Some([]) && s.fields.ifMatch != Some([])
  }

  /** The scan holds the options it does not drop: per kind, in order, and nothing else. */
  ghost predicate Records(s: Scan, options: seq<CoapOption>) {
    && (forall k :: Kept(k) ==> Recorded(s, k) == OfKind(options, k))
    && ListsFilled(s)
  }

  lemma {:induction false} ScanRecords(options: seq<CoapOption>)
    requires ScanAll(options).Ok?
    ensures Records(ScanAll(options).value, options)
  {
    hide Recorded, ScanStep, Kind, Kept;
    if options == [] {
      RecordedEmpty();
    } else {
      var init, o := options[..|options| - 1], options[|options| - 1];
      ScanRecords(init);
      var s := ScanAll(init).value;
      forall k | Kept(k)
        ensures Recorded(ScanStep(s, o).value, k) == OfKind(options, k)
      {
        FilterSnoc(init, o, KindIs(k));
        assert options == init + [o];
        if k == Kind(o) {
          StepRecordsOwnKind(s, o);
        } else {
          StepKeepsOtherKinds(s, o, k);
        }
      }
      StepFillsLists(s, o);
    }
  }

  lemma RecordedEmpty()
    ensures forall k :: Recorded(EMPTY_SCAN, k) == []
  {
  }

  lemma ScannableSnoc(init: seq<CoapOption>, o: CoapOption)
    ensures Scannable(init + [o]) <==> Scannable(init) && Offence(init, o) == None
  {
    hide BadScheme, NonRepeatable, ResponseOnly, Kind;
    forall k: Option<OptionType>
      ensures OfKind(init + [o], k) == OfKind(init, k) + if Kind(o) == k then [o] else []
    {
      FilterSnoc(init, o, KindIs(k));
    }
    TypeClasses();
    if Kind(o) == None {
      KindNone(o);
    }
    if Scannable(init + [o]) {
      assert forall t :: OfKind(init, Some(t)) <= OfKind(init + [o], Some(t));
      assert forall p :: p in init ==> p in init + [o];
      assert o in init + [o];
    }
  }

  lemma KindNone(o: CoapOption)
    requires Kind(o) == None
    ensures !BadScheme(o)
  {
    hide SchemeFromText;
  }

  lemma TypeClasses()
    ensures forall t :: !(NonRepeatable(t) && ResponseOnly(t))
  {
  }

  /** The scan succeeds on exactly the scannable lists, and names the first offence otherwise. */
  lemma {:induction false} ScanDecides(options: seq<CoapOption>)
    ensures ScanAll(options).Ok? <==> Scannable(options)
    ensures ScanAll(options).Err? ==>
              exists i :: 0 <= i < |options| && Scannable(options[..i])
                          && Offence(options[..i], options[i]) == Some(ScanAll(options).error)
  {
    hide ScanStep, Offence;
    if options == [] {
    } else {
      var init, o := options[..|options| - 1], options[|options| - 1];
      assert options == init + [o];
      ScanDecides(init);
      ScannableSnoc(init, o);
      if ScanAll(init).Ok? {
        ScanRecords(init);
        StepOffends(ScanAll(init).value, init, o);
      } else {
        var i :| 0 <= i < |init| && Scannable(init[..i])
                 && Offence(init[..i], init[i]) == Some(ScanAll(init).error);
        assert options[..i] == init[..i];
      }
    }
  }

  /** Requests are parsed from exactly the acceptable option lists. */
  lemma ParseDecides(options: seq<CoapOption>)
    ensures ParseOptions(options).Ok? <==> Acceptable(options)
    ensures ParseOptions(options).Ok? ==> Records(ParseOptions(options).value, options)
    ensures Scannable(options) && !Acceptable(options) ==>
              ParseOptions(options) == Err(InvalidOptionCombination(OptionType.ProxyScheme, OptionType.ProxyUri))
  {
    hide ScanStep, Scannable, SchemeText;
    ScanDecides(options);
    if ScanAll(options).Ok? {
      ScanRecords(options);
      var s := ScanAll(options).value;
      assert Recorded(s, Some(OptionType.ProxyUri)) == OfKind(options, Some(OptionType.ProxyUri));
      assert Recorded(s, Some(OptionType.ProxyScheme)) == OfKind(options, Some(OptionType.ProxyScheme));
    }
  }

  // ---------------------------------------------------------------- wire order does not matter

  /** A scan is determined, leftovers apart, by the options it has recorded. */
  lemma RecordsDetermine(a: Scan, b: Scan)
    requires ListsFilled(a) && ListsFilled(b)
    requires forall t :: !Dropped(t) ==> Recorded(a, Some(t)) == Recorded(b, Some(t))
    ensures a == b.(additional := a.additional)
  {
    hide IsUtf8, SchemeText, PathOptions, QueryOptions, FieldOptions, ListsFilled;
    FieldsDetermineFromScan(a, b);
    assert Recorded(a, Some(OptionType.UriHost)) == Recorded(b, Some(OptionType.UriHost));
    assert Recorded(a, Some(OptionType.UriPort)) == Recorded(b, Some(OptionType.UriPort));
    assert Recorded(a, Some(OptionType.ProxyUri)) == Recorded(b, Some(OptionType.ProxyUri));
    ProxySchemeDetermines(a, b);
    ListsDetermine(a, b);
  }

  lemma ProxySchemeDetermines(a: Scan, b: Scan)
    requires Recorded(a, Some(OptionType.ProxyScheme)) == Recorded(b, Some(OptionType.ProxyScheme))
    ensures a.proxyScheme == b.proxyScheme
  {
    hide IsUtf8, SchemeText, PathOptions, QueryOptions, FieldOptions;
    if a.proxyScheme.Some? && b.proxyScheme.Some? {
      SchemeRoundTrip(a.proxyScheme.value, SchemeText(a.proxyScheme.value));
      SchemeRoundTrip(b.proxyScheme.value, SchemeText(b.proxyScheme.value));
    }
  }

  lemma ListsDetermine(a: Scan, b: Scan)
    requires ListsFilled(a) && ListsFilled(b)
    requires Recorded(a, Some(OptionType.UriPath)) == Recorded(b, Some(OptionType.UriPath))
    requires Recorded(a, Some(OptionType.UriQuery)) == Recorded(b, Some(OptionType.UriQuery))
    ensures a.path == b.path && a.query == b.query
  {
    hide IsUtf8, SchemeText, PathOptions, QueryOptions, FieldOptions;
    PathOptionsInjective(ListOf(a.path), ListOf(b.path));
    QueryOptionsInjective(ListOf(a.query), ListOf(b.query));
  }

  lemma FieldsDetermineFromScan(a: Scan, b: Scan)
    requires ListsFilled(a) && ListsFilled(b)
    requires forall t :: !Dropped(t) ==> Recorded(a, Some(t)) == Recorded(b, Some(t))
    ensures a.fields == b.fields
  {
    forall t
      ensures FieldOptions(a.fields, t) == FieldOptions(b.fields, t)
    {
      hide IfMatchOptions, ETagOptions, PathOptions, QueryOptions, SchemeText;
      if !Dropped(t) {
        assert Recorded(a, Some(t)) == Recorded(b, Some(t));
      }
    }
    FieldsDetermine(a.fields, b.fields);
  }

  lemma PathOptionsInjective(a: seq<Text>, b: seq<Text>)
    requires PathOptions(a) == PathOptions(b)
    ensures a == b
  {
    assert forall i :: 0 <= i < |a| ==> PathOptions(a)[i].segment == a[i];
    assert forall i :: 0 <= i < |b| ==> PathOptions(b)[i].segment == b[i];
  }

  lemma QueryOptionsInjective(a: seq<Text>, b: seq<Text>)
    requires QueryOptions(a) == QueryOptions(b)
    ensures a == b
  {
    assert forall i :: 0 <= i < |a| ==> QueryOptions(a)[i].component == a[i];
    assert forall i :: 0 <= i < |b| ==> QueryOptions(b)[i].component == b[i];
  }

  lemma ETagOptionsInjective(a: seq<Bytes>, b: seq<Bytes>)
    requires ETagOptions(a) == ETagOptions(b)
    ensures a == b
  {
    assert forall i :: 0 <= i < |a| ==> ETagOptions(a)[i].tag == a[i];
    assert forall i :: 0 <= i < |b| ==> ETagOptions(b)[i].tag == b[i];
  }

  lemma IfMatchOptionsInjective(a: seq<CoapMatch>, b: seq<CoapMatch>)
    requires IfMatchOptions(a) == IfMatchOptions(b)
    ensures a == b
  {
    assert forall i :: 0 <= i < |a| ==> IfMatchOptions(a)[i].condition == a[i];
    assert forall i :: 0 <= i < |b| ==> IfMatchOptions(b)[i].condition == b[i];
  }

  lemma FieldsDetermine(a: Fields, b: Fields)
    requires a.etag != Some([]) && a.ifMatch != Some([]) && b.etag != Some([]) && b.ifMatch != Some([])
    requires forall t :: FieldOptions(a, t) == FieldOptions(b, t)
    ensures a == b
  {
    assert FieldOptions(a, OptionType.Accept) == FieldOptions(b, OptionType.Accept);
    assert FieldOptions(a, OptionType.ContentFormat) == FieldOptions(b, OptionType.ContentFormat);
    assert FieldOptions(a, OptionType.IfNoneMatch) == FieldOptions(b, OptionType.IfNoneMatch);
    assert FieldOptions(a, OptionType.HopLimit) == FieldOptions(b, OptionType.HopLimit);
    assert FieldOptions(a, OptionType.NoResponse) == FieldOptions(b, OptionType.NoResponse);
    assert FieldOptions(a, OptionType.Observe) == FieldOptions(b, OptionType.Observe);
    assert FieldOptions(a, OptionType.ETag) == FieldOptions(b, OptionType.ETag);
    assert FieldOptions(a, OptionType.IfMatch) == FieldOptions(b, OptionType.IfMatch);
    hide ETagOptions, IfMatchOptions;
    ETagOptionsInjective(ListOf(a.etag), ListOf(b.etag));
    IfMatchOptionsInjective(ListOf(a.ifMatch), ListOf(b.ifMatch));
  }

  lemma SortKeepsKinds(a: seq<CoapOption>, b: seq<CoapOption>, t: OptionType)
    requires IsStableSort(OptionNumber, a, b)
    ensures OfKind(b, Some(t)) == OfKind(a, Some(t))
  {
    hide TypeNumber;
    StableSortInvisible(OptionNumber, a, b, KindIs(Some(t)), TypeNumber(t));
  }

  /**
   Ordering an option list by number changes neither whether it is accepted nor any field; the
   leftover options come out as their own stable sort.
   */
  lemma SortInvisibleToScan(a: seq<CoapOption>, b: seq<CoapOption>)
    requires IsStableSort(OptionNumber, a, b)
    ensures ParseOptions(a).Ok? <==> ParseOptions(b).Ok?
    ensures ParseOptions(a).Ok? ==>
              && ParseOptions(b).value == ParseOptions(a).value.(additional := ParseOptions(b).value.additional)
              && IsStableSort(OptionNumber, ParseOptions(a).value.additional, ParseOptions(b).value.additional)
  {
    hide ParseOptions, Recorded, ScanAll, OfKind, NonRepeatable, ResponseOnly, BadScheme, ListsFilled;
    forall t
      ensures OfKind(b, Some(t)) == OfKind(a, Some(t))
    {
      SortKeepsKinds(a, b, t);
    }
    StableSortSameElements(OptionNumber, a, b);
    ParseDecides(a);
    ParseDecides(b);
    assert Acceptable(a) <==> Acceptable(b);
    if Acceptable(a) {
      var s, t := ParseOptions(a).value, ParseOptions(b).value;
      assert forall u :: !Dropped(u) ==> Recorded(t, Some(u)) == Recorded(s, Some(u));
      RecordsDetermine(t, s);
      LeftoverIsOther(s, a);
      LeftoverIsOther(t, b);
      FilterOfStableSort(OptionNumber, a, b, KindIs(None));
    }
  }

  lemma LeftoverIsOther(s: Scan, options: seq<CoapOption>)
    requires Records(s, options)
    ensures s.additional == Filter(options, KindIs(None))
  {
    assert Recorded(s, None) == OfKind(options, None);
  }

  // ---------------------------------------------------------------- emission

  /** The contract of `coap_uri_into_options`: entries for Uri-* options only, host and port at most once. */
  ghost predicate UriContract(v: UriView) {
    v.entries.Some? ==>
      && (forall w :: w in v.entries.value ==> UriNumber(w.num))
      && |Filter(v.entries.value, KeyIs(WireNumber, TypeNumber(OptionType.UriHost)))| <= 1
      && |Filter(v.entries.value, KeyIs(WireNumber, TypeNumber(OptionType.UriPort)))| <= 1
  }

  predicate UriKind(t: OptionType) {
    t in {OptionType.UriHost, OptionType.UriPort, OptionType.UriPath, OptionType.UriQuery}
  }

  predicate UriNumber(n: u16) {
    n == TypeNumber(OptionType.UriHost) || n == TypeNumber(OptionType.UriPort)
    || n == TypeNumber(OptionType.UriPath) || n == TypeNumber(OptionType.UriQuery)
  }

  /** `into_options` returns: libcoap produced entries, and every one of them can be read. */
  predicate UriDecodes(v: UriView) {
    v.entries.Some? && DecodeAll(v.entries.value).Value?
  }

  function UriOptions(v: UriView): seq<CoapOption>
    requires UriDecodes(v)
  {
    DecodeAll(v.entries.value).value
  }

  /** `into_options`; None where it panics. */
  method IntoOptions(v: UriView) returns (r: Option<seq<CoapOption>>)
    ensures r == if UriDecodes(v) then Some(UriOptions(v)) else None
  {
    if v.entries == None {
      return None;
    }
    var entries := v.entries.value;
    var options: seq<CoapOption> := [];
    for i := 0 to |entries|
      invariant DecodeAll(entries[..i]) == Value(options)
    {
      hide FromTypeValue, TypeOfNumber;
      assert entries[..i + 1][..i] == entries[..i];
      var option := FromTypeValue(entries[i].num, entries[i].value);
      if !option.Value? {
        DecodeAllStopsAt(entries, i + 1);
        return None;
      }
      options := options + [option.value];
    }
    assert entries[..|entries|] == entries;
    return Some(options);
  }

  /** A value libcoap may cut out of a URI that the option types accept. */
  predicate ReadableEntry(w: WireOption) {
    if w.num == TypeNumber(OptionType.UriPort) then |w.value| <= 2
    else (w.num == TypeNumber(OptionType.UriHost) ==> w.value != []) && |w.value| <= 255 && IsUtf8(w.value)
  }

  lemma EntryReads(w: WireOption)
    requires UriNumber(w.num)
    ensures FromTypeValue(w.num, w.value).Value? <==> ReadableEntry(w)
    ensures FromTypeValue(w.num, w.value).Value? ==>
              Kind(FromTypeValue(w.num, w.value).value) == TypeOfNumber(w.num)
  {
    hide IsUtf8, Decode16, Decode32;
  }

  /** When a URI becomes options: exactly when no host or segment is too long, empty host or not UTF-8. */
  lemma UriDecodesExactly(v: UriView)
    requires UriContract(v)
    ensures UriDecodes(v) <==> v.entries.Some? && forall w :: w in v.entries.value ==> ReadableEntry(w)
  {
    hide DecodeAll, FromTypeValue, ReadableEntry, UriNumber, TypeNumber;
    if v.entries.Some? {
      DecodeAllElements(v.entries.value);
      forall w | w in v.entries.value
        ensures FromTypeValue(w.num, w.value).Value? <==> ReadableEntry(w)
      {
        EntryReads(w);
      }
    }
  }

  /** What the contract says of the decoded options. */
  ghost predicate UriShape(options: seq<CoapOption>) {
    && (forall o :: o in options ==> o.UriHost? || o.UriPort? || o.UriPath? || o.UriQuery?)
    && |OfKind(options, Some(OptionType.UriHost))| <= 1
    && |OfKind(options, Some(OptionType.UriPort))| <= 1
  }

  lemma UriKindOf(o: CoapOption)
    requires Kind(o).Some? && UriKind(Kind(o).value)
    ensures o.UriHost? || o.UriPort? || o.UriPath? || o.UriQuery?
  {
  }

  lemma UriNumberKind(n: u16)
    requires UriNumber(n)
    ensures TypeOfNumber(n).Some? && UriKind(TypeOfNumber(n).value)
  {
  }

  lemma KindCount(wire: seq<WireOption>, t: OptionType)
    requires DecodeAll(wire).Value?
    ensures |OfKind(DecodeAll(wire).value, Some(t))| <= |Filter(wire, KeyIs(WireNumber, TypeNumber(t)))|
  {
    hide DecodeAll, TypeNumber, Kind;
    var options := DecodeAll(wire).value;
    var n: int := TypeNumber(t);
    DecodedFilter(wire, n);
    DecodeAllElements(Filter(wire, KeyIs(WireNumber, n)));
    forall o | o in options && Kind(o) == Some(t)
      ensures KeyIs(OptionNumber, n)(o)
    {
      KindNumber(o, t);
    }
    FilterNarrow(options, KeyIs(OptionNumber, n), KindIs(Some(t)));
    FilterShrinks(Filter(options, KeyIs(OptionNumber, n)), KindIs(Some(t)));
  }

  lemma KindNumber(o: CoapOption, t: OptionType)
    requires Kind(o) == Some(t)
    ensures KeyIs(OptionNumber, TypeNumber(t))(o)
  {
    hide TypeNumber;
    assert OptionNumber(o) == TypeNumber(t);
  }

  lemma UriContractShape(v: UriView)
    requires UriContract(v) && UriDecodes(v)
    ensures UriShape(UriOptions(v)) && AllCanonical(UriOptions(v))
  {
    hide DecodeAll, FromTypeValue, Kind, UriNumber, OfKind, TypeNumber, TypeOfNumber, UriKind;
    var wire, options := v.entries.value, UriOptions(v);
    DecodedIsCanonical(wire);
    DecodeAllElements(wire);
    forall o | o in options
      ensures o.UriHost? || o.UriPort? || o.UriPath? || o.UriQuery?
    {
      var i :| 0 <= i < |options| && options[i] == o;
      EntryReads(wire[i]);
      UriNumberKind(wire[i].num);
      UriKindOf(o);
    }
    KindCount(wire, OptionType.UriHost);
    KindCount(wire, OptionType.UriPort);
  }

  /** `into_message` panics on a proxy URI without a scheme, and on a URI that does not become options. */
  predicate Emits(rq: CoapRequest) {
    (rq.uri.isProxy ==> rq.uri.scheme.Some?) && UriDecodes(rq.uri)
  }

  function SchemeOptions(v: UriView): seq<CoapOption>
    requires v.isProxy ==> v.scheme.Some?
  {
    if v.isProxy then [CoapOption.ProxyScheme(SchemeText(v.scheme.value))] else []
  }

  function Emitted(rq: CoapRequest): seq<CoapOption>
    requires Emits(rq)
  {
    var f := rq.fields;
    var e0 := rq.extra + SchemeOptions(rq.uri) + UriOptions(rq.uri);
    var e1 := e0 + FieldOptions(f, OptionType.Accept);
    var e2 := e1 + FieldOptions(f, OptionType.ETag);
    var e3 := e2 + FieldOptions(f, OptionType.IfMatch);
    var e4 := e3 + FieldOptions(f, OptionType.ContentFormat);
    var e5 := e4 + FieldOptions(f, OptionType.IfNoneMatch);
    var e6 := e5 + FieldOptions(f, OptionType.HopLimit);
    var e7 := e6 + FieldOptions(f, OptionType.NoResponse);
    e7 + FieldOptions(f, OptionType.Observe)
  }

  function EmittedMessage(rq: CoapRequest): Message
    requires Emits(rq)
  {
    Message(rq.code, Emitted(rq), rq.data)
  }

  method AddETags(options: seq<CoapOption>, etags: Option<seq<Bytes>>) returns (r: seq<CoapOption>)
    ensures r == options + ETagOptions(ListOf(etags))
  {
    r := options;
    if etags.Some? {
      for i := 0 to |etags.value|
        invariant r == options + ETagOptions(etags.value)[..i]
      {
        r := r + [CoapOption.ETag(etags.value[i])];
      }
    }
  }

  method AddIfMatches(options: seq<CoapOption>, matches: Option<seq<CoapMatch>>) returns (r: seq<CoapOption>)
    ensures r == options + IfMatchOptions(ListOf(matches))
  {
    r := options;
    if matches.Some? {
      for i := 0 to |matches.value|
        invariant r == options + IfMatchOptions(matches.value)[..i]
      {
        r := r + [CoapOption.IfMatch(matches.value[i])];
      }
    }
  }

  method AddNegotiation(options: seq<CoapOption>, f: Fields) returns (r: seq<CoapOption>)
    ensures r == options + FieldOptions(f, OptionType.Accept) + FieldOptions(f, OptionType.ETag)
                 + FieldOptions(f, OptionType.IfMatch) + FieldOptions(f, OptionType.ContentFormat)
  {
    hide ETagOptions, IfMatchOptions, IsUtf8;
    r := options;
    if f.accept.Some? {
      r := r + [CoapOption.Accept(f.accept.value)];
    }
    assert r == options + FieldOptions(f, OptionType.Accept);
    r := AddETags(r, f.etag);
    assert r == options + FieldOptions(f, OptionType.Accept) + FieldOptions(f, OptionType.ETag);
    r := AddIfMatches(r, f.ifMatch);
    if f.contentFormat.Some? {
      r := r + [CoapOption.ContentFormat(f.contentFormat.value)];
    }
  }

  method AddDirectives(options: seq<CoapOption>, f: Fields) returns (r: seq<CoapOption>)
    ensures r == options + FieldOptions(f, OptionType.IfNoneMatch) + FieldOptions(f, OptionType.HopLimit)
                 + FieldOptions(f, OptionType.NoResponse) + FieldOptions(f, OptionType.Observe)
  {
    r := options;
    if f.ifNoneMatch {
      r := r + [CoapOption.IfNoneMatch];
    }
    if f.hopLimit.Some? {
      r := r + [CoapOption.HopLimit(f.hopLimit.value)];
    }
    if f.noResponse.Some? {
      r := r + [CoapOption.NoResponse(f.noResponse.value)];
    }
    if f.observe.Some? {
      r := r + [CoapOption.Observe(f.observe.value)];
    }
  }

  /** `into_message`; None where it panics. */
  method IntoMessage(rq: CoapRequest) returns (r: Option<Message>)
    ensures r == if Emits(rq) then Some(EmittedMessage(rq)) else None
  {
    hide FieldOptions, UriOptions;
    var options := rq.extra;
    if rq.uri.isProxy {
      if rq.uri.scheme == None {
        return None;
      }
      options := options + [CoapOption.ProxyScheme(SchemeText(rq.uri.scheme.value))];
    }
    var uriOptions := IntoOptions(rq.uri);
    if uriOptions == None {
      return None;
    }
    options := options + uriOptions.value;
    assert options == rq.extra + SchemeOptions(rq.uri) + UriOptions(rq.uri);
    options := AddNegotiation(options, rq.fields);
    options := AddDirectives(options, rq.fields);
    return Some(Message(rq.code, options, rq.data));
  }

  /** When emission panics, for every URI libcoap can split. */
  lemma EmitsExactly(rq: CoapRequest)
    requires UriContract(rq.uri)
    ensures Emits(rq) <==>
            && (rq.uri.isProxy ==> rq.uri.scheme.Some?)
            && rq.uri.entries.Some? && forall w :: w in rq.uri.entries.value ==> ReadableEntry(w)
  {
    hide UriDecodes, UriContract, ReadableEntry;
    UriDecodesExactly(rq.uri);
  }

  lemma FieldOptionsKind(f: Fields, u: OptionType)
    ensures forall o :: o in FieldOptions(f, u) ==> Kind(o) == Some(u)
  {
  }

  lemma AppendFieldOfKind(options: seq<CoapOption>, f: Fields, u: OptionType, k: Option<OptionType>)
    ensures OfKind(options + FieldOptions(f, u), k) ==
            OfKind(options, k) + if k == Some(u) then FieldOptions(f, u) else []
  {
    hide FieldOptions, Kind;
    FilterConcat(options, FieldOptions(f, u), KindIs(k));
    FieldOptionsKind(f, u);
    if k == Some(u) {
      OfKindAll(FieldOptions(f, u), k);
    } else {
      OfKindNone(FieldOptions(f, u), k);
    }
  }

  predicate FieldKind(t: OptionType) {
    t in {OptionType.Accept, OptionType.ETag, OptionType.IfMatch, OptionType.ContentFormat,
          OptionType.IfNoneMatch, OptionType.HopLimit, OptionType.NoResponse, OptionType.Observe}
  }

  /** Emission adds each field under its own kind and nothing else. */
  lemma EmittedOfKind(rq: CoapRequest, k: Option<OptionType>)
    requires Emits(rq)
    ensures OfKind(Emitted(rq), k) ==
            OfKind(rq.extra + SchemeOptions(rq.uri) + UriOptions(rq.uri), k)
            + if k.Some? && FieldKind(k.value) then FieldOptions(rq.fields, k.value) else []
  {
    hide FieldOptions, OfKind, SchemeOptions;
    var f := rq.fields;
    var e0 := rq.extra + SchemeOptions(rq.uri) + UriOptions(rq.uri);
    var e1 := e0 + FieldOptions(f, OptionType.Accept);
    var e2 := e1 + FieldOptions(f, OptionType.ETag);
    var e3 := e2 + FieldOptions(f, OptionType.IfMatch);
    var e4 := e3 + FieldOptions(f, OptionType.ContentFormat);
    var e5 := e4 + FieldOptions(f, OptionType.IfNoneMatch);
    var e6 := e5 + FieldOptions(f, OptionType.HopLimit);
    var e7 := e6 + FieldOptions(f, OptionType.NoResponse);
    AppendFieldOfKind(e0, f, OptionType.Accept, k);
    AppendFieldOfKind(e1, f, OptionType.ETag, k);
    AppendFieldOfKind(e2, f, OptionType.IfMatch, k);
    AppendFieldOfKind(e3, f, OptionType.ContentFormat, k);
    AppendFieldOfKind(e4, f, OptionType.IfNoneMatch, k);
    AppendFieldOfKind(e5, f, OptionType.HopLimit, k);
    AppendFieldOfKind(e6, f, OptionType.NoResponse, k);
    AppendFieldOfKind(e7, f, OptionType.Observe, k);
  }
}
