/**
 CoAP options: their numbers and length limits, and the conversions between a typed option and
 its (number, value bytes) form.
 */
module CoapOptions {
  import opened Sequences
  import opened VarInt

  type Bytes = seq<byte>

  /** Well-formed UTF-8, what `String::from_utf8` accepts. */
  predicate IsUtf8(s: Bytes) {
    if s == [] then true
    else if s[0] < 0x80 then IsUtf8(s[1..])
    else if 0xC2 <= s[0] < 0xE0 then |s| >= 2 && 0x80 <= s[1] < 0xC0 && IsUtf8(s[2..])
    else if 0xE0 <= s[0] < 0xF0 then
      && |s| >= 3
      && (if s[0] == 0xE0 then 0xA0 else 0x80) <= s[1] < (if s[0] == 0xED then 0xA0 else 0xC0)
      && 0x80 <= s[2] < 0xC0
      && IsUtf8(s[3..])
    else
      && 0xF0 <= s[0] < 0xF5
      && |s| >= 4
      && (if s[0] == 0xF0 then 0x90 else 0x80) <= s[1] < (if s[0] == 0xF4 then 0x90 else 0xC0)
      && 0x80 <= s[2] < 0xC0
      && 0x80 <= s[3] < 0xC0
      && IsUtf8(s[4..])
  }

  type Text = s: Bytes | IsUtf8(s) witness []

  datatype CoapMatch = MatchETag(tag: Bytes) | MatchEmpty

  datatype OptionType =
    | IfMatch | UriHost | ETag | IfNoneMatch | Observe | UriPort | LocationPath | Oscore | UriPath
    | ContentFormat | MaxAge | UriQuery | HopLimit | Accept | QBlock1 | LocationQuery | Block2
    | Block1 | Size2 | QBlock2 | ProxyUri | ProxyScheme | Size1 | Echo | NoResponse | RTag

  datatype CoapOption =
    | IfMatch(condition: CoapMatch)
    | IfNoneMatch
    | UriHost(host: Text)
    | UriPort(port: u16)
    | UriPath(segment: Text)
    | UriQuery(component: Text)
    | LocationPath(segment: Text)
    | LocationQuery(component: Text)
    | ProxyUri(uri: Text)
    | ProxyScheme(scheme: Text)
    | ContentFormat(format: u16)
    | Accept(format: u16)
    | Size1(size: u32)
    | Size2(size: u32)
    | Block1(block: u32)
    | Block2(block: u32)
    | HopLimit(limit: u16)
    | NoResponse(suppress: byte)
    | ETag(tag: Bytes)
    | MaxAge(age: u32)
    | Observe(sequence: u32)
    | Oscore(data: Bytes)
    | Echo(data: Bytes)
    | RTag(data: Bytes)
    | QBlock1(block: u32)
    | QBlock2(block: u32)
    | Other(num: u16, data: Bytes)

  /** The registered type an option is declared with; None for `Other`. */
  function Kind(o: CoapOption): Option<OptionType> {
    match o
    case IfMatch(_) => Some(OptionType.IfMatch)
    case IfNoneMatch => Some(OptionType.IfNoneMatch)
    case UriHost(_) => Some(OptionType.UriHost)
    case UriPort(_) => Some(OptionType.UriPort)
    case UriPath(_) => Some(OptionType.UriPath)
    case UriQuery(_) => Some(OptionType.UriQuery)
    case LocationPath(_) => Some(OptionType.LocationPath)
    case LocationQuery(_) => Some(OptionType.LocationQuery)
    case ProxyUri(_) => Some(OptionType.ProxyUri)
    case ProxyScheme(_) => Some(OptionType.ProxyScheme)
    case ContentFormat(_) => Some(OptionType.ContentFormat)
    case Accept(_) => Some(OptionType.Accept)
    case Size1(_) => Some(OptionType.Size1)
    case Size2(_) => Some(OptionType.Size2)
    case Block1(_) => Some(OptionType.Block1)
    case Block2(_) => Some(OptionType.Block2)
    case HopLimit(_) => Some(OptionType.HopLimit)
    case NoResponse(_) => Some(OptionType.NoResponse)
    case ETag(_) => Some(OptionType.ETag)
    case MaxAge(_) => Some(OptionType.MaxAge)
    case Observe(_) => Some(OptionType.Observe)
    case Oscore(_) => Some(OptionType.Oscore)
    case Echo(_) => Some(OptionType.Echo)
    case RTag(_) => Some(OptionType.RTag)
    case QBlock1(_) => Some(OptionType.QBlock1)
    case QBlock2(_) => Some(OptionType.QBlock2)
    case Other(_, _) => None
  }

  /** The numbers registered with the IANA. */
  function TypeNumber(t: OptionType): u16 {
    match t
    case IfMatch => 1
    case UriHost => 3
    case ETag => 4
    case IfNoneMatch => 5
    case Observe => 6
    case UriPort => 7
    case LocationPath => 8
    case Oscore => 9
    case UriPath => 11
    case ContentFormat => 12
    case MaxAge => 14
    case UriQuery => 15
    case HopLimit => 16
    case Accept => 17
    case QBlock1 => 19
    case LocationQuery => 20
    case Block2 => 23
    case Block1 => 27
    case Size2 => 28
    case QBlock2 => 31
    case ProxyUri => 35
    case ProxyScheme => 39
    case Size1 => 60
    case Echo => 252
    case NoResponse => 258
    case RTag => 292
  }

  /** `CoapOptionType::from_u16`, the inverse of the numbering. */
  function TypeOfNumber(n: u16): (r: Option<OptionType>)
    ensures r.Some? ==> TypeNumber(r.value) == n
  {
    match n
    case 1 => Some(OptionType.IfMatch)
    case 3 => Some(OptionType.UriHost)
    case 4 => Some(OptionType.ETag)
    case 5 => Some(OptionType.IfNoneMatch)
    case 6 => Some(OptionType.Observe)
    case 7 => Some(OptionType.UriPort)
    case 8 => Some(OptionType.LocationPath)
    case 9 => Some(OptionType.Oscore)
    case 11 => Some(OptionType.UriPath)
    case 12 => Some(OptionType.ContentFormat)
    case 14 => Some(OptionType.MaxAge)
    case 15 => Some(OptionType.UriQuery)
    case 16 => Some(OptionType.HopLimit)
    case 17 => Some(OptionType.Accept)
    case 19 => Some(OptionType.QBlock1)
    case 20 => Some(OptionType.LocationQuery)
    case 23 => Some(OptionType.Block2)
    case 27 => Some(OptionType.Block1)
    case 28 => Some(OptionType.Size2)
    case 31 => Some(OptionType.QBlock2)
    case 35 => Some(OptionType.ProxyUri)
    case 39 => Some(OptionType.ProxyScheme)
    case 60 => Some(OptionType.Size1)
    case 252 => Some(OptionType.Echo)
    case 258 => Some(OptionType.NoResponse)
    case 292 => Some(OptionType.RTag)
    case _ => None
  }

  function Number(o: CoapOption): u16 {
    if o.Other? then o.num else TypeNumber(Kind(o).value)
  }

  function MaxLen(t: OptionType): nat {
    match t
    case IfNoneMatch => 0
    case HopLimit | NoResponse => 1
    case UriPort | ContentFormat | Accept => 2
    case Block1 | Block2 | Observe | QBlock1 | QBlock2 => 3
    case MaxAge | Size1 | Size2 => 4
    case IfMatch | ETag | RTag => 8
    case Echo => 40
    case UriHost | LocationPath | UriPath | UriQuery | LocationQuery | ProxyScheme | Oscore => 255
    case ProxyUri => 1034
  }

  function MinLen(t: OptionType): nat {
    match t
    case UriHost | ETag | ProxyUri | ProxyScheme | HopLimit | Echo => 1
    case _ => 0
  }

  datatype ValueError = TooShort | TooLong | StringConversion

  function CheckLength(t: OptionType, len: nat): Result<(), ValueError> {
    if len < MinLen(t) then Err(TooShort) else if len > MaxLen(t) then Err(TooLong) else Ok(())
  }

  /** Byte width of the integers a type carries; None for the types that carry no integer. */
  function IntegerWidth(t: OptionType): Option<nat> {
    match t
    case UriPort | ContentFormat | Accept | HopLimit => Some(2)
    case Size1 | Size2 | Block1 | Block2 | MaxAge | Observe | QBlock1 | QBlock2 => Some(4)
    case _ => None
  }

  function Encode16(v: u16): Bytes {
    assert Pow256(2) == 0x1_0000;
    Encode(2, v)
  }

  function Encode32(v: u32): Bytes {
    assert Pow256(2) == 0x1_0000;
    assert Pow256(4) == 0x1_0000_0000;
    Encode(4, v)
  }

  function ValueBytes(o: CoapOption): Bytes {
    match o
    case IfMatch(c) => if c.MatchETag? then c.tag else []
    case IfNoneMatch => []
    case UriHost(v) => v
    case UriPort(v) => Encode16(v)
    case UriPath(v) => v
    case UriQuery(v) => v
    case LocationPath(v) => v
    case LocationQuery(v) => v
    case ProxyUri(v) => v
    case ProxyScheme(v) => v
    case ContentFormat(v) => Encode16(v)
    case Accept(v) => Encode16(v)
    case Size1(v) => Encode32(v)
    case Size2(v) => Encode32(v)
    case Block1(v) => Encode32(v)
    case Block2(v) => Encode32(v)
    case HopLimit(v) => Encode16(v)
    case NoResponse(v) => [v]
    case ETag(v) => v
    case MaxAge(v) => Encode32(v)
    case Observe(v) => Encode32(v)
    case Oscore(v) => v
    case Echo(v) => v
    case RTag(v) => v
    case QBlock1(v) => Encode32(v)
    case QBlock2(v) => Encode32(v)
    case Other(_, v) => v
  }

  /** The value bytes of an option, unless they break the length limits of its number. */
  function IntoValueBytes(o: CoapOption): Result<Bytes, ValueError> {
    var bytes := ValueBytes(o);
    var t := TypeOfNumber(Number(o));
    if t.Some? && CheckLength(t.value, |bytes|).Err? then Err(CheckLength(t.value, |bytes|).error)
    else Ok(bytes)
  }

  /** What a conversion from bytes ends with: a value, an error, or a panic. */
  datatype Outcome<+T, +E> = Value(value: T) | Failure(error: E) | Panic

  function Decode16(bytes: Bytes): (v: u16)
    requires |bytes| <= 2
  {
    assert Pow256(2) == 0x1_0000;
    Decode(2, bytes).value
  }

  function Decode32(bytes: Bytes): (v: u32)
    requires |bytes| <= 4
  {
    assert Pow256(2) == 0x1_0000;
    assert Pow256(4) == 0x1_0000_0000;
    Decode(4, bytes).value
  }

  /** The result of `decode_var_len_u8` cast to a byte. */
  function NoResponseOf(n: Option<nat>): Outcome<CoapOption, ValueError> {
    if n == None then Panic else Value(CoapOption.NoResponse(n.value % 0x100))
  }

  /** The typed reading of value bytes whose length has been checked. */
  function DecodeValue(t: OptionType, v: Bytes): Outcome<CoapOption, ValueError>
    requires |v| <= MaxLen(t)
  {
    match t
    case IfMatch => Value(CoapOption.IfMatch(if v == [] then MatchEmpty else MatchETag(v)))
    case UriHost => if IsUtf8(v) then Value(CoapOption.UriHost(v)) else Failure(StringConversion)
    case ETag => Value(CoapOption.ETag(v))
    case IfNoneMatch => Value(CoapOption.IfNoneMatch)
    case UriPort => Value(CoapOption.UriPort(Decode16(v)))
    case LocationPath => if IsUtf8(v) then Value(CoapOption.LocationPath(v)) else Failure(StringConversion)
    case UriPath => if IsUtf8(v) then Value(CoapOption.UriPath(v)) else Failure(StringConversion)
    case ContentFormat => Value(CoapOption.ContentFormat(Decode16(v)))
    case MaxAge => Value(CoapOption.MaxAge(Decode32(v)))
    case UriQuery => if IsUtf8(v) then Value(CoapOption.UriQuery(v)) else Failure(StringConversion)
    case Accept => Value(CoapOption.Accept(Decode16(v)))
    case LocationQuery => if IsUtf8(v) then Value(CoapOption.LocationQuery(v)) else Failure(StringConversion)
    case ProxyUri => if IsUtf8(v) then Value(CoapOption.ProxyUri(v)) else Failure(StringConversion)
    case ProxyScheme => if IsUtf8(v) then Value(CoapOption.ProxyScheme(v)) else Failure(StringConversion)
    case Size1 => Value(CoapOption.Size1(Decode32(v)))
    case Size2 => Value(CoapOption.Size2(Decode32(v)))
    case Block1 => Value(CoapOption.Block1(Decode32(v)))
    case Block2 => Value(CoapOption.Block2(Decode32(v)))
    case HopLimit => Value(CoapOption.HopLimit(Decode16(v)))
    case NoResponse => NoResponseOf(DecodeAs(1, 2, v))
    case Observe => Value(CoapOption.Observe(Decode32(v)))
    case Oscore => Value(CoapOption.Oscore(v))
    case Echo => Value(CoapOption.Echo(v))
    case RTag => Value(CoapOption.RTag(v))
    case QBlock1 => Value(CoapOption.QBlock1(Decode32(v)))
    case QBlock2 => Value(CoapOption.QBlock2(Decode32(v)))
  }

  function FromTypeValue(n: u16, v: Bytes): Outcome<CoapOption, ValueError> {
    var t := TypeOfNumber(n);
    if t == None then Value(Other(n, v))
    else if CheckLength(t.value, |v|).Err? then Failure(CheckLength(t.value, |v|).error)
    else DecodeValue(t.value, v)
  }

  // ---------------------------------------------------------------- both directions of the codec

  /** The options that are the decoded form of their own bytes. */
  predicate Canonical(o: CoapOption) {
    && !o.NoResponse?
    && o != CoapOption.IfMatch(MatchETag([]))
    && (o.Other? ==> TypeOfNumber(o.num) == None)
  }

  /** An option with a number that is not registered. */
  predicate Unregistered(o: CoapOption) {
    o.Other? && TypeOfNumber(o.num) == None
  }

  lemma IntegersDecodeBack(v: u32)
    ensures |Encode32(v)| <= 4 && Decode32(Encode32(v)) == v
    ensures v < 0x1_0000 ==> |Encode16(v)| <= 2 && Decode16(Encode16(v)) == v
  {
    assert Pow256(2) == 0x1_0000;
    assert Pow256(4) == 0x1_0000_0000;
    DecodeEncode(4, v);
    EncodeShortest(4, v, []);
    if v < 0x1_0000 {
      DecodeEncode(2, v);
      EncodeShortest(2, v, []);
    }
  }

  function IntegerOf(o: CoapOption): u32 {
    match o
    case UriPort(v) => v
    case ContentFormat(v) => v
    case Accept(v) => v
    case HopLimit(v) => v
    case Size1(v) => v
    case Size2(v) => v
    case Block1(v) => v
    case Block2(v) => v
    case MaxAge(v) => v
    case Observe(v) => v
    case QBlock1(v) => v
    case QBlock2(v) => v
    case _ => 0
  }

  function KindOfTyped(o: CoapOption): (t: OptionType)
    requires !o.Other?
    ensures Kind(o) == Some(t)
  {
    Kind(o).value
  }

  lemma TypeOfTypeNumber(t: OptionType)
    ensures TypeOfNumber(TypeNumber(t)) == Some(t)
  {
  }

  lemma IntegerDecodesBack(o: CoapOption)
    requires !o.Other? && IntegerWidth(Kind(o).value).Some? && |ValueBytes(o)| <= MaxLen(Kind(o).value)
    ensures DecodeValue(Kind(o).value, ValueBytes(o)) == Value(o) && Canonical(o)
  {
    hide IsUtf8, TypeOfNumber, TypeNumber, Encode16, Encode32, Decode16, Decode32;
    IntegersDecodeBack(IntegerOf(o));
  }

  lemma PlainDecodesBack(o: CoapOption)
    requires !o.Other? && IntegerWidth(Kind(o).value) == None && |ValueBytes(o)| <= MaxLen(Kind(o).value)
    ensures DecodeValue(Kind(o).value, ValueBytes(o)) == Value(o) <==> Canonical(o)
  {
    hide IsUtf8, TypeOfNumber, TypeNumber, Encode16, Encode32, Decode16, Decode32;
  }

  lemma TypedDecodesBack(o: CoapOption)
    requires !o.Other? && IntoValueBytes(o).Ok?
    ensures FromTypeValue(Number(o), IntoValueBytes(o).value) == Value(o) <==> Canonical(o)
  {
    hide Kind, ValueBytes, MaxLen, MinLen, TypeNumber, TypeOfNumber, IntegerWidth, DecodeValue, Canonical;
    var t := KindOfTyped(o);
    TypeOfTypeNumber(t);
    if IntegerWidth(t).Some? {
      IntegerDecodesBack(o);
    } else {
      PlainDecodesBack(o);
    }
  }

  /** An option that encodes decodes back to itself exactly when it is canonical. */
  lemma DecodesBack(o: CoapOption)
    requires IntoValueBytes(o).Ok?
    ensures FromTypeValue(Number(o), IntoValueBytes(o).value) == Value(o) <==> Canonical(o)
  {
    if !o.Other? {
      TypedDecodesBack(o);
    } else if TypeOfNumber(o.num).Some? {
      hide TypeNumber, TypeOfNumber;
      var t := TypeOfNumber(o.num).value;
      if CheckLength(t, |o.data|).Ok? && DecodeValue(t, o.data).Value? {
        DecodeValueReencodes(t, o.data);
      }
    }
  }

  lemma IntegersReencode(v: Bytes)
    ensures |v| <= 4 ==> Encode32(Decode32(v)) == StripZeros(v)
    ensures |v| <= 2 ==> Encode16(Decode16(v)) == StripZeros(v)
    ensures |StripZeros(v)| <= |v|
  {
    StripKeepsValue(v);
    if |v| <= 4 {
      EncodeDecode(4, v);
    }
    if |v| <= 2 {
      EncodeDecode(2, v);
    }
  }

  /** The shortest bytes with the meaning of `v` under type `t`. */
  function Normalised(t: OptionType, v: Bytes): Bytes {
    if IntegerWidth(t).Some? then StripZeros(v) else v
  }

  lemma DecodeValueKind(t: OptionType, v: Bytes)
    requires |v| <= MaxLen(t) && DecodeValue(t, v).Value?
    ensures Kind(DecodeValue(t, v).value) == Some(t)
  {
    hide IsUtf8, TypeOfNumber, TypeNumber, StripZeros, Encode16, Encode32, Decode16, Decode32, Canonical;
  }

  lemma DecodeValueCanonical(t: OptionType, v: Bytes)
    requires |v| <= MaxLen(t) && DecodeValue(t, v).Value?
    ensures Canonical(DecodeValue(t, v).value)
  {
    hide IsUtf8, TypeOfNumber, TypeNumber, StripZeros, Encode16, Encode32, Decode16, Decode32, Kind, FromBigEndian;
  }

  lemma DecodeValueReencodes(t: OptionType, v: Bytes)
    requires |v| <= MaxLen(t) && DecodeValue(t, v).Value?
    ensures ValueBytes(DecodeValue(t, v).value) == Normalised(t, v)
  {
    hide IsUtf8, TypeOfNumber, TypeNumber, StripZeros, Encode16, Encode32, Decode16, Decode32, Kind, Canonical;
    IntegersReencode(v);
  }

  lemma NormalisedLength(t: OptionType, v: Bytes)
    requires CheckLength(t, |v|).Ok?
    ensures CheckLength(t, |Normalised(t, v)|) ==
            if t == OptionType.HopLimit && v == [0] then Err(TooShort) else Ok(())
  {
    IntegersReencode(v);
    assert |v| == 1 ==> v == [v[0]] && StripZeros(v) == if v[0] == 0 then [] else v;
  }

  lemma ReencodesTyped(t: OptionType, v: Bytes)
    requires CheckLength(t, |v|).Ok? && DecodeValue(t, v).Value?
    ensures Number(DecodeValue(t, v).value) == TypeNumber(t)
    ensures IntoValueBytes(DecodeValue(t, v).value) ==
            if t == OptionType.HopLimit && v == [0] then Err(TooShort) else Ok(Normalised(t, v))
  {
    DecodeValueKind(t, v);
    DecodeValueReencodes(t, v);
    NormalisedLength(t, v);
    TypeOfTypeNumber(t);
    hide ValueBytes, MaxLen, MinLen, TypeNumber, TypeOfNumber, IntegerWidth, DecodeValue, Normalised;
  }

  /**
   Whatever is accepted from the wire keeps its number and re-encodes to its normalised bytes;
   the one exception is Hop-Limit zero, which is accepted but then too short to encode.
   */
  lemma Reencodes(n: u16, v: Bytes)
    requires FromTypeValue(n, v).Value?
    ensures Canonical(FromTypeValue(n, v).value)
    ensures Number(FromTypeValue(n, v).value) == n
    ensures
      var t := TypeOfNumber(n);
      IntoValueBytes(FromTypeValue(n, v).value) ==
      if t == None then Ok(v)
      else if t.value == OptionType.HopLimit && v == [0] then Err(TooShort)
      else Ok(Normalised(t.value, v))
  {
    hide MaxLen, MinLen, TypeNumber, TypeOfNumber, IntegerWidth, DecodeValue, Normalised;
    var t := TypeOfNumber(n);
    if t.Some? {
      ReencodesTyped(t.value, v);
      DecodeValueCanonical(t.value, v);
    }
  }

  /** The types whose values are text. */
  predicate IsText(t: OptionType) {
    t in {OptionType.UriHost, OptionType.LocationPath, OptionType.UriPath, OptionType.UriQuery, OptionType.LocationQuery,
          OptionType.ProxyUri, OptionType.ProxyScheme}
  }

  /** What reading value bytes ends with, in all cases; what a value holds is the subject of `Reencodes`. */
  lemma ReadingDecides(n: u16, v: Bytes)
    ensures var t := TypeOfNumber(n); var r := FromTypeValue(n, v);
            && (t == None ==> r == Value(Other(n, v)))
            && (t.Some? && |v| < MinLen(t.value) ==> r == Failure(TooShort))
            && (t.Some? && |v| > MaxLen(t.value) ==> r == Failure(TooLong))
            && (t.Some? && MinLen(t.value) <= |v| <= MaxLen(t.value) ==>
                  && (r == Panic <==> t.value == OptionType.NoResponse)
                  && (r.Failure? <==> IsText(t.value) && !IsUtf8(v))
                  && (r.Failure? ==> r == Failure(StringConversion)))
  {
    hide IsUtf8, TypeOfNumber, TypeNumber, Decode16, Decode32, MinLen, MaxLen;
    var t := TypeOfNumber(n);
    if t.Some? {
      LimitsOrdered(t.value);
    }
    if t.Some? && MinLen(t.value) <= |v| <= MaxLen(t.value) {
      ValueDecides(t.value, v);
    }
  }

  lemma LimitsOrdered(t: OptionType)
    ensures MinLen(t) <= MaxLen(t)
  {
  }

  lemma ValueDecides(t: OptionType, v: Bytes)
    requires |v| <= MaxLen(t)
    ensures var r := DecodeValue(t, v);
            && (r == Panic <==> t == OptionType.NoResponse)
            && (r.Failure? <==> IsText(t) && !IsUtf8(v))
            && (r.Failure? ==> r == Failure(StringConversion))
  {
    hide IsUtf8, TypeOfNumber, TypeNumber, Decode16, Decode32, FromBigEndian;
  }

  /** When an option does not encode: its bytes break the limits of the type its number is registered for. */
  lemma EncodingDecides(o: CoapOption)
    ensures var t := TypeOfNumber(Number(o)); var r := IntoValueBytes(o);
            && (t == None ==> r == Ok(ValueBytes(o)))
            && (t.Some? ==> (r == Err(TooShort) <==> |ValueBytes(o)| < MinLen(t.value)))
            && (t.Some? ==> (r == Err(TooLong) <==> |ValueBytes(o)| > MaxLen(t.value)))
            && (r.Ok? ==> r.value == ValueBytes(o)) && r != Err(StringConversion)
  {
    hide TypeOfNumber, TypeNumber, ValueBytes, MinLen, MaxLen, Number;
    if TypeOfNumber(Number(o)).Some? {
      LimitsOrdered(TypeOfNumber(Number(o)).value);
    }
  }

  // ---------------------------------------------------------------- the registry

  datatype Format = Empty | Opaque | Uint | Utf8 | Panicking

  /** A line of the option registry: Table 4 of RFC 7252 and its later additions, with this library's limits. */
  datatype Registration = Registration(number: u16, format: Format, min: nat, max: nat)

  function Registry(t: OptionType): Registration {
    match t
    case IfMatch => Registration(1, Opaque, 0, 8)
    case UriHost => Registration(3, Utf8, 1, 255)
    case ETag => Registration(4, Opaque, 1, 8)
    case IfNoneMatch => Registration(5, Empty, 0, 0)
    case Observe => Registration(6, Uint, 0, 3)
    case UriPort => Registration(7, Uint, 0, 2)
    case LocationPath => Registration(8, Utf8, 0, 255)
    case Oscore => Registration(9, Opaque, 0, 255)
    case UriPath => Registration(11, Utf8, 0, 255)
    case ContentFormat => Registration(12, Uint, 0, 2)
    case MaxAge => Registration(14, Uint, 0, 4)
    case UriQuery => Registration(15, Utf8, 0, 255)
    case HopLimit => Registration(16, Uint, 1, 1)
    case Accept => Registration(17, Uint, 0, 2)
    case QBlock1 => Registration(19, Uint, 0, 3)
    case LocationQuery => Registration(20, Utf8, 0, 255)
    case Block2 => Registration(23, Uint, 0, 3)
    case Block1 => Registration(27, Uint, 0, 3)
    case Size2 => Registration(28, Uint, 0, 4)
    case QBlock2 => Registration(31, Uint, 0, 3)
    case ProxyUri => Registration(35, Utf8, 1, 1034)
    case ProxyScheme => Registration(39, Utf8, 1, 255)
    case Size1 => Registration(60, Uint, 0, 4)
    case Echo => Registration(252, Opaque, 1, 40)
    case NoResponse => Registration(258, Panicking, 0, 1)
    case RTag => Registration(292, Opaque, 0, 8)
  }

  lemma RegistryLine(t: OptionType)
    ensures Registry(t).number == TypeNumber(t) && Registry(t).min == MinLen(t) && Registry(t).max == MaxLen(t)
    ensures Registry(t).format == Utf8 <==> IsText(t)
    ensures Registry(t).format == Uint <==> IntegerWidth(t).Some?
    ensures Registry(t).format == Panicking <==> t == OptionType.NoResponse
  {
  }

  lemma IntegersRead(t: OptionType, v: Bytes)
    requires IntegerWidth(t).Some? && |v| <= MaxLen(t)
    ensures DecodeValue(t, v).Value? && IntegerOf(DecodeValue(t, v).value) == FromBigEndian(v)
  {
    hide IsUtf8, FromBigEndian, Zeros, StripZeros, Pow256, Decode16, Decode32, DecodeAs, NoResponseOf;
    IntegersReadPadded(v);
  }

  lemma IntegersReadPadded(v: Bytes)
    ensures |v| <= 2 ==> Decode16(v) == FromBigEndian(v)
    ensures |v| <= 4 ==> Decode32(v) == FromBigEndian(v)
  {
    hide FromBigEndian, Zeros, StripZeros, Pow256;
    if |v| <= 2 {
      PadKeepsValue(2 - |v|, v);
    }
    if |v| <= 4 {
      PadKeepsValue(4 - |v|, v);
    }
  }

  /**
   Reading an option goes by the registry: what its line says decides between an option of that name and
   value, the three errors and the panic.
   */
  lemma RegistryDecides(t: OptionType, v: Bytes)
    ensures var line := Registry(t); var r := FromTypeValue(line.number, v);
            && (r == Failure(TooShort) <==> |v| < line.min)
            && (r == Failure(TooLong) <==> |v| > line.max)
            && (r == Failure(StringConversion) <==> line.min <= |v| <= line.max && line.format == Utf8 && !IsUtf8(v))
            && (r == Panic <==> line.min <= |v| <= line.max && line.format == Panicking)
            && (r.Value? ==> Kind(r.value) == Some(t))
            && (r.Value? && line.format == Uint ==> IntegerOf(r.value) == FromBigEndian(v))
            && (r.Value? && line.format != Uint ==> ValueBytes(r.value) == v)
  {
    hide Registry, IsUtf8, TypeOfNumber, TypeNumber, MinLen, MaxLen, IntegerWidth, IsText, DecodeValue, Kind, ValueBytes,
         IntegerOf, StripZeros;
    RegistryLine(t);
    TypeOfTypeNumber(t);
    LimitsOrdered(t);
    ReadingDecides(Registry(t).number, v);
    if FromTypeValue(Registry(t).number, v).Value? {
      DecodeValueKind(t, v);
      DecodeValueReencodes(t, v);
      if Registry(t).format == Uint {
        IntegersRead(t, v);
      }
    }
  }

  /** A number without a line is not interpreted. */
  lemma RegistryComplete(n: u16, v: Bytes)
    requires forall t :: Registry(t).number != n
    ensures FromTypeValue(n, v) == Value(Other(n, v))
  {
    hide Registry, IsUtf8, MinLen, MaxLen, DecodeValue, TypeOfNumber, TypeNumber;
    if TypeOfNumber(n).Some? {
      RegistryLine(TypeOfNumber(n).value);
    }
  }

  /**
   No bytes at all decode to a No-Response option: the lengths it allows are padded to one byte, and
   reading an array of two bytes from that panics.
   */
  lemma NoResponseNeverDecodes(v: Bytes)
    ensures FromTypeValue(TypeNumber(OptionType.NoResponse), v) == if |v| <= 1 then Panic else Failure(TooLong)
  {
    hide FromBigEndian, Zeros;
    DecodeAsSucceeds(1, 2, v);
    TypeOfTypeNumber(OptionType.NoResponse);
  }
}
