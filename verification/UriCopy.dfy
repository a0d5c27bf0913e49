/**
 Copies of libcoap's parsed URIs: the parts are laid out in a new string, and the copy's fields point
 into it.
 */
module UriCopy {
  import opened Sequences
  import opened VarInt
  import opened CoapOptions
  import opened UriScheme
  import UriText

  // ---------------------------------------------------------------- the string that holds the parts

  const COLON: byte := 58
  const DIGIT_ZERO: byte := 48

  function Decimal(n: nat): Bytes {
    if n < 10 then [DIGIT_ZERO + n] else Decimal(n / 10) + [DIGIT_ZERO + n % 10]
  }

  predicate NulFree(s: Bytes) {
    forall i :: 0 <= i < |s| ==> s[i] != 0
  }

  /** Reads a sequence of decimal digits. */
  function ReadDecimal(s: Bytes): int {
    if s == [] then 0 else 10 * ReadDecimal(s[..|s| - 1]) + s[|s| - 1] - 48
  }

  /** The digits are those of the number, without leading zeros. */
  lemma {:induction false} DecimalReadsBack(n: nat)
    ensures ReadDecimal(Decimal(n)) == n
    ensures forall i :: 0 <= i < |Decimal(n)| ==> 48 <= Decimal(n)[i] < 58
    ensures |Decimal(n)| > 0 && (|Decimal(n)| > 1 ==> Decimal(n)[0] != 48)
  {
    if n >= 10 {
      DecimalReadsBack(n / 10);
      var d := Decimal(n / 10);
      assert (d + [DIGIT_ZERO + n % 10])[..|d|] == d;
      if |d| == 1 {
        assert d == [DIGIT_ZERO + n / 10];
      }
    } else {
      assert Decimal(n)[..0] == [];
    }
  }

  lemma {:induction false} DecimalNulFree(n: nat)
    ensures NulFree(Decimal(n))
  {
    if n >= 10 {
      DecimalNulFree(n / 10);
    }
  }

  function SchemePart(scheme: Scheme, host: Bytes): Bytes {
    if host == [] then [] else SchemeText(scheme) + [COLON, UriText.SLASH, UriText.SLASH]
  }

  function PortPart(port: u16): Bytes {
    if port == 0 then [] else [COLON] + Decimal(port)
  }

  /** A scheme goes with a host and ends in "://"; a port is a colon and its decimal digits, and zero is no port. */
  lemma GeneratedParts(scheme: Scheme, host: Bytes, port: u16)
    ensures SchemePart(scheme, host) == [] <==> host == []
    ensures host != [] ==> SchemePart(scheme, host) == SchemeText(scheme) + [58, 47, 47]
    ensures PortPart(port) == [] <==> port == 0
    ensures port != 0 ==> PortPart(port)[0] == 58 && ReadDecimal(PortPart(port)[1..]) == port
  {
    hide SchemeText, Decimal;
    DecimalReadsBack(port);
    if port != 0 {
      assert ([COLON] + Decimal(port))[1..] == Decimal(port);
    }
  }

  lemma GeneratedPartsNulFree(scheme: Scheme, host: Bytes, port: u16)
    ensures NulFree(SchemePart(scheme, host)) && NulFree(PortPart(port))
  {
    hide IsUtf8, SchemeText, Decimal;
    assert NulFree(SchemeBytes(scheme));
    DecimalNulFree(port);
  }

  function Concat(parts: seq<Bytes>): Bytes {
    if parts == [] then [] else Concat(parts[..|parts| - 1]) + parts[|parts| - 1]
  }

  lemma {:induction false} ConcatPrefix(parts: seq<Bytes>, k: nat)
    requires k < |parts|
    ensures |Concat(parts[..k])| + |parts[k]| <= |Concat(parts)|
    ensures Concat(parts)[|Concat(parts[..k])|..|Concat(parts[..k])| + |parts[k]|] == parts[k]
  {
    var n := |parts| - 1;
    if k < n {
      assert parts[..n][..k] == parts[..k];
      ConcatPrefix(parts[..n], k);
    }
  }

  method CopyInto(buf: array<byte>, pos: nat, part: Bytes)
    requires pos + |part| <= buf.Length
    modifies buf
    ensures buf[..pos] == old(buf[..pos])
    ensures buf[pos..pos + |part|] == part
  {
    var i := 0;
    while i < |part|
      invariant 0 <= i <= |part|
      invariant buf[..pos] == old(buf[..pos])
      invariant buf[pos..pos + i] == part[..i]
    {
      buf[pos + i] := part[i];
      i := i + 1;
    }
  }

  method SumLengths(parts: seq<Bytes>) returns (n: nat)
    ensures n == |Concat(parts)|
  {
    n := 0;
    var i := 0;
    while i < |parts|
      invariant 0 <= i <= |parts|
      invariant n == |Concat(parts[..i])|
    {
      assert parts[..i + 1][..i] == parts[..i];
      n := n + |parts[i]|;
      i := i + 1;
    }
    assert parts[..i] == parts;
  }

  /** The copy loop: the buffer is filled part by part and ends up exactly full. */
  method CopyParts(parts: seq<Bytes>) returns (copy: Bytes)
    ensures copy == Concat(parts)
  {
    var len := SumLengths(parts);
    var buf := new byte[len](_ => 0);
    var pos := 0;
    var i := 0;
    while i < |parts|
      invariant 0 <= i <= |parts|
      invariant pos == |Concat(parts[..i])| && pos <= buf.Length == |Concat(parts)|
      invariant buf[..pos] == Concat(parts[..i])
    {
      ConcatPrefix(parts, i);
      assert parts[..i + 1][..i] == parts[..i];
      CopyInto(buf, pos, parts[i]);
      assert buf[..pos + |parts[i]|] == buf[..pos] + buf[pos..pos + |parts[i]|];
      pos := pos + |parts[i]|;
      i := i + 1;
    }
    assert parts[..i] == parts;
    copy := buf[..];
  }

  datatype UriString = UriString(text: Bytes, hostPos: nat, pathPos: nat, queryPos: nat)

  /** The offsets cut the host, the path and the query back out of the text. */
  predicate Cuts(u: UriString, host: Bytes, path: Bytes, query: Bytes) {
    && u.hostPos + |host| <= |u.text| && u.text[u.hostPos..u.hostPos + |host|] == host
    && u.pathPos + |path| <= |u.text| && u.text[u.pathPos..u.pathPos + |path|] == path
    && u.queryPos + |query| <= |u.text| && u.text[u.queryPos..u.queryPos + |query|] == query
  }

  lemma ConcatFive(a: Bytes, b: Bytes, c: Bytes, d: Bytes, e: Bytes)
    ensures Concat([a, b, c, d, e]) == a + b + c + d + e
  {
    var p := [a, b, c, d, e];
    assert p[..4] == [a, b, c, d] && p[..4][..3] == [a, b, c] && p[..4][..3][..2] == [a, b];
    assert p[..4][..3][..2][..1] == [a] && [a][..0] == [];
    assert Concat([a]) == a && Concat([a, b]) == a + b && Concat([a, b, c]) == a + b + c;
    assert Concat([a, b, c, d]) == a + b + c + d;
  }

  /** `construct_uri_string_from_parts`: fails exactly when a part contains a NUL byte. */
  method ConstructUriString(scheme: Scheme, host: Bytes, port: u16, path: Bytes, query: Bytes)
    returns (r: Option<UriString>)
    ensures r == None <==> !(NulFree(host) && NulFree(path) && NulFree(query))
    ensures r.Some? ==>
              && r.value.text == SchemePart(scheme, host) + host + PortPart(port) + path + query
              && Cuts(r.value, host, path, query) && NulFree(r.value.text)
  {
    hide SchemePart, PortPart, Concat;
    var schemePart, portPart := SchemePart(scheme, host), PortPart(port);
    var parts := [schemePart, host, portPart, path, query];
    var copy := CopyParts(parts);
    var hostPos := SumLengths(parts[..1]);
    var pathPos := SumLengths(parts[..3]);
    var queryPos := SumLengths(parts[..4]);
    ConcatPrefix(parts, 1);
    ConcatPrefix(parts, 3);
    ConcatPrefix(parts, 4);
    ConcatFive(schemePart, host, portPart, path, query);
    GeneratedPartsNulFree(scheme, host, port);
    NulFreeConcat(schemePart, host, portPart, path, query);
    var clean := IsNulFree(copy);
    r := if clean then Some(UriString(copy, hostPos, pathPos, queryPos)) else None;
  }

  lemma NulFreeConcat(a: Bytes, b: Bytes, c: Bytes, d: Bytes, e: Bytes)
    ensures NulFree(a + b + c + d + e) <==> NulFree(a) && NulFree(b) && NulFree(c) && NulFree(d) && NulFree(e)
  {
    NulFreeAppend(a, b);
    NulFreeAppend(a + b, c);
    NulFreeAppend(a + b + c, d);
    NulFreeAppend(a + b + c + d, e);
  }

  lemma NulFreeAppend(a: Bytes, b: Bytes)
    ensures NulFree(a + b) <==> NulFree(a) && NulFree(b)
  {
    if NulFree(a + b) {
      assert forall i :: 0 <= i < |a| ==> a[i] == (a + b)[i];
      assert forall i :: 0 <= i < |b| ==> b[i] == (a + b)[|a| + i];
    }
  }

  /** The check made by the construction of a C string. */
  method IsNulFree(s: Bytes) returns (r: bool)
    ensures r == NulFree(s)
  {
    var i := 0;
    while i < |s|
      invariant 0 <= i <= |s|
      invariant forall j :: 0 <= j < i ==> s[j] != 0
    {
      if s[i] == 0 {
        return false;
      }
      i := i + 1;
    }
    r := true;
  }

  // ---------------------------------------------------------------- libcoap's URI structure

  /** `coap_str_const_t`: None for a null pointer, otherwise the memory from the pointer to the end of its string. */
  datatype StrConst = StrConst(s: Option<Bytes>, length: nat)

  predicate ValidStr(v: StrConst) {
    v.length <= if v.s.Some? then |v.s.value| else 0
  }

  /** The bytes a field refers to. */
  function View(v: StrConst): (r: Bytes)
    requires ValidStr(v)
    ensures |r| == v.length
  {
    if v.s.Some? then v.s.value[..v.length] else []
  }

  datatype RawUri = RawUri(scheme: Scheme, host: StrConst, port: u16, path: StrConst, query: StrConst)

  datatype CoapUri = CoapUri(raw: RawUri, isProxy: bool)

  predicate ValidUri(u: RawUri) {
    ValidStr(u.host) && ValidStr(u.path) && ValidStr(u.query)
  }

  /** `coap_string_equal_internal`. */
  predicate StringEqual(a: StrConst, b: StrConst)
    requires ValidStr(a) && ValidStr(b)
  {
    a.length == b.length
    && (a.length == 0 || (a.s.Some? && b.s.Some? && a.s.value[..a.length] == b.s.value[..b.length]))
  }

  /** `PartialEq for CoapUri`. */
  predicate UriEqual(a: CoapUri, b: CoapUri)
    requires ValidUri(a.raw) && ValidUri(b.raw)
  {
    && a.raw.port == b.raw.port && a.raw.scheme == b.raw.scheme
    && StringEqual(a.raw.host, b.raw.host) && StringEqual(a.raw.path, b.raw.path) && StringEqual(a.raw.query, b.raw.query)
  }

  /** Two strings compare equal exactly when they refer to the same bytes, wherever those are. */
  lemma StringEqualMeansSameBytes(a: StrConst, b: StrConst)
    requires ValidStr(a) && ValidStr(b)
    ensures StringEqual(a, b) <==> View(a) == View(b)
  {
    if a.length == 0 && b.length == 0 {
      assert View(a) == [] && View(b) == [];
    }
  }

  /** Equality of URIs is equality of their parts, hence an equivalence. */
  lemma UriEqualMeansSameParts(a: CoapUri, b: CoapUri)
    requires ValidUri(a.raw) && ValidUri(b.raw)
    ensures UriEqual(a, b) <==>
            && a.raw.port == b.raw.port && a.raw.scheme == b.raw.scheme && View(a.raw.host) == View(b.raw.host)
            && View(a.raw.path) == View(b.raw.path) && View(a.raw.query) == View(b.raw.query)
  {
    StringEqualMeansSameBytes(a.raw.host, b.raw.host);
    StringEqualMeansSameBytes(a.raw.path, b.raw.path);
    StringEqualMeansSameBytes(a.raw.query, b.raw.query);
  }

  // The accessors of a URI.

  function Host(u: CoapUri): Option<Bytes>
    requires ValidUri(u.raw)
  {
    if u.raw.host.length == 0 then None else Some(View(u.raw.host))
  }

  function Path(u: CoapUri): Option<Bytes>
    requires ValidUri(u.raw)
  {
    if u.raw.path.s == None then None else Some(View(u.raw.path))
  }

  function Query(u: CoapUri): Option<Bytes>
    requires ValidUri(u.raw)
  {
    if u.raw.query.s == None then None else Some(View(u.raw.query))
  }

  /** A pointer to the given position of a NUL-terminated string. */
  method PointInto(text: Bytes, pos: nat, length: nat) returns (v: StrConst)
    requires pos + length <= |text|
    ensures ValidStr(v) && v.s.Some? && View(v) == text[pos..pos + length]
  {
    var withNul := text + [0];
    v := StrConst(Some(withNul[pos..]), length);
    assert withNul[pos..][..length] == text[pos..pos + length];
  }

  /**
   `from_raw_uri`, which is also how URIs are cloned: None for its panic, which happens exactly when a
   part contains a NUL byte. Every offset is within the new string, and the copy equals its source.
   The copy has a path and a query even where the source has null pointers.
   */
  method FromRawUri(raw: RawUri, isProxy: bool) returns (r: Option<CoapUri>)
    requires ValidUri(raw)
    ensures r == None <==> !(NulFree(View(raw.host)) && NulFree(View(raw.path)) && NulFree(View(raw.query)))
    ensures r.Some? ==>
              var source := CoapUri(raw, isProxy);
              && ValidUri(r.value.raw) && r.value.isProxy == isProxy
              && UriEqual(r.value, source) && UriEqual(source, r.value)
              && Host(r.value) == Host(source)
              && Path(r.value) == Some(View(raw.path)) && Query(r.value) == Some(View(raw.query))
              && (Path(r.value) == Path(source) <==> raw.path.s.Some?)
              && (Query(r.value) == Query(source) <==> raw.query.s.Some?)
  {
    hide NulFree, SchemePart, PortPart;
    var str := ConstructUriString(raw.scheme, View(raw.host), raw.port, View(raw.path), View(raw.query));
    if str == None {
      return None;
    }
    var u := str.value;
    var host := PointInto(u.text, u.hostPos, raw.host.length);
    var path := PointInto(u.text, u.pathPos, raw.path.length);
    var query := PointInto(u.text, u.queryPos, raw.query.length);
    r := Some(CoapUri(RawUri(raw.scheme, host, raw.port, path, query), isProxy));
    UriEqualMeansSameParts(r.value, CoapUri(raw, isProxy));
    UriEqualMeansSameParts(CoapUri(raw, isProxy), r.value);
  }
}
