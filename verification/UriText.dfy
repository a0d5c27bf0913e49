/**
 URIs as text: the path and query strings built from message options, and the room a URI's own
 options need.
 */
module UriText {
  import opened Sequences
  import opened VarInt
  import opened CoapOptions

  const SLASH: byte := 47
  const QUESTION: byte := 63
  const AMPERSAND: byte := 38

  // ---------------------------------------------------------------- joining and splitting

  predicate Free(s: Bytes, sep: byte) {
    forall i :: 0 <= i < |s| ==> s[i] != sep
  }

  predicate AllFree(segs: seq<Bytes>, sep: byte) {
    forall i :: 0 <= i < |segs| ==> Free(segs[i], sep)
  }

  function Join(segs: seq<Bytes>, sep: byte): Bytes {
    if segs == [] then []
    else if |segs| == 1 then segs[0]
    else Join(segs[..|segs| - 1], sep) + [sep] + segs[|segs| - 1]
  }

  /** Cuts a string at every separator; there is always one piece more than there are separators. */
  function Split(s: Bytes, sep: byte): (r: seq<Bytes>)
    ensures r != []
  {
    if s == [] then [[]]
    else
      var r := Split(s[..|s| - 1], sep);
      var last := s[|s| - 1];
      if last == sep then r + [[]] else r[..|r| - 1] + [r[|r| - 1] + [last]]
  }

  lemma {:induction false} SplitSnoc(a: Bytes, sep: byte, b: Bytes)
    requires Free(b, sep)
    ensures Split(a + [sep] + b, sep) == Split(a, sep) + [b]
  {
    var s := a + [sep] + b;
    if b == [] {
      assert s[..|s| - 1] == a;
    } else {
      var n := |b| - 1;
      assert s[..|s| - 1] == a + [sep] + b[..n] && s[|s| - 1] == b[n];
      SplitSnoc(a, sep, b[..n]);
      var r := Split(a, sep) + [b[..n]];
      assert r[..|r| - 1] == Split(a, sep) && b[..n] + [b[n]] == b;
    }
  }

  lemma {:induction false} SplitFree(b: Bytes, sep: byte)
    requires Free(b, sep)
    ensures Split(b, sep) == [b]
  {
    if b != [] {
      var n := |b| - 1;
      SplitFree(b[..n], sep);
      assert b[..n] + [b[n]] == b;
    }
  }

  lemma {:induction false} SplitJoin(segs: seq<Bytes>, sep: byte)
    requires segs != [] && AllFree(segs, sep)
    ensures Split(Join(segs, sep), sep) == segs
  {
    hide Split, Free;
    var n := |segs| - 1;
    assert segs == segs[..n] + [segs[n]];
    if n == 0 {
      SplitFree(segs[0], sep);
    } else {
      assert AllFree(segs[..n], sep);
      SplitJoin(segs[..n], sep);
      SplitSnoc(Join(segs[..n], sep), sep, segs[n]);
    }
  }

  lemma {:induction false} SplitIsFree(s: Bytes, sep: byte)
    ensures AllFree(Split(s, sep), sep)
  {
    if s != [] {
      SplitIsFree(s[..|s| - 1], sep);
      var r := Split(s[..|s| - 1], sep);
      assert Free(r[|r| - 1], sep);
    }
  }

  lemma {:induction false} JoinSplit(s: Bytes, sep: byte)
    ensures Join(Split(s, sep), sep) == s
  {
    if s != [] {
      var init, last := s[..|s| - 1], s[|s| - 1];
      JoinSplit(init, sep);
      var r := Split(init, sep);
      assert s == init + [last];
      if last == sep {
        assert (r + [[]])[..|r|] == r;
      } else {
        JoinExtend(r, sep, last);
      }
    }
  }

  lemma JoinExtend(r: seq<Bytes>, sep: byte, last: byte)
    requires r != []
    ensures Join(r[..|r| - 1] + [r[|r| - 1] + [last]], sep) == Join(r, sep) + [last]
  {
    var m := |r| - 1;
    var t := r[..m] + [r[m] + [last]];
    assert t[..m] == r[..m] && t[m] == r[m] + [last];
  }

  // ---------------------------------------------------------------- path and query strings

  /** `construct_path_string`: every component preceded by a slash. */
  function PathString(components: seq<Bytes>): Bytes {
    if components == [] then []
    else PathString(components[..|components| - 1]) + [SLASH] + components[|components| - 1]
  }

  function SplitPath(s: Bytes): seq<Bytes> {
    if s == [] then [] else Split(s[1..], SLASH)
  }

  lemma {:induction false} PathStringJoins(components: seq<Bytes>)
    requires components != []
    ensures PathString(components) == [SLASH] + Join(components, SLASH)
  {
    var n := |components| - 1;
    if n > 0 {
      PathStringJoins(components[..n]);
    } else {
      assert components[..0] == [];
      assert PathString(components) == [] + [SLASH] + components[0];
    }
  }

  /** The components can be read back from the path exactly when none of them contains a slash. */
  lemma PathRoundTrip(components: seq<Bytes>)
    ensures SplitPath(PathString(components)) == components <==> AllFree(components, SLASH)
  {
    if components != [] {
      PathStringJoins(components);
      var s := PathString(components);
      assert s[1..] == Join(components, SLASH);
      SplitIsFree(s[1..], SLASH);
      if AllFree(components, SLASH) {
        SplitJoin(components, SLASH);
      }
    }
  }

  /** And every string that is empty or starts with a slash is the path of its components. */
  lemma SplitPathRoundTrip(s: Bytes)
    ensures PathString(SplitPath(s)) == s <==> s == [] || s[0] == 47
  {
    if s != [] {
      PathStringJoins(SplitPath(s));
      JoinSplit(s[1..], SLASH);
      assert s == [s[0]] + s[1..];
    }
  }

  /** Different lists of slash-free components have different paths. */
  lemma PathStringInjective(a: seq<Bytes>, b: seq<Bytes>)
    requires AllFree(a, SLASH) && AllFree(b, SLASH) && PathString(a) == PathString(b)
    ensures a == b
  {
    PathRoundTrip(a);
    PathRoundTrip(b);
  }

  /** `construct_query_string`. */
  method ConstructQueryString(components: seq<Bytes>) returns (out: Bytes)
    ensures out == QueryString(components)
  {
    out := [QUESTION];
    if components != [] {
      out := out + components[0];
      var i := 1;
      assert components[..1] == [components[0]];
      while i < |components|
        invariant 1 <= i <= |components|
        invariant out == [QUESTION] + Join(components[..i], AMPERSAND)
      {
        assert components[..i + 1][..i] == components[..i];
        out := out + ([AMPERSAND] + components[i]);
        i := i + 1;
      }
      assert components[..i] == components;
    }
  }

  function QueryString(components: seq<Bytes>): Bytes {
    [QUESTION] + Join(components, AMPERSAND)
  }

  function SplitQuery(s: Bytes): seq<Bytes>
    requires s != []
  {
    Split(s[1..], AMPERSAND)
  }

  /** The components can be read back from the query exactly when there is one and none contains an ampersand. */
  lemma QueryRoundTrip(components: seq<Bytes>)
    ensures SplitQuery(QueryString(components)) == components
            <==> components != [] && AllFree(components, AMPERSAND)
  {
    var s := QueryString(components);
    assert s[1..] == Join(components, AMPERSAND);
    SplitIsFree(s[1..], AMPERSAND);
    if components != [] && AllFree(components, AMPERSAND) {
      SplitJoin(components, AMPERSAND);
    }
  }

  /** And every string that starts with a question mark is the query of its components. */
  lemma SplitQueryRoundTrip(s: Bytes)
    requires s != []
    ensures QueryString(SplitQuery(s)) == s <==> s[0] == 63
  {
    JoinSplit(s[1..], AMPERSAND);
    assert s == [s[0]] + s[1..];
  }

  lemma QueryStringInjective(a: seq<Bytes>, b: seq<Bytes>)
    requires a != [] && b != [] && AllFree(a, AMPERSAND) && AllFree(b, AMPERSAND) && QueryString(a) == QueryString(b)
    ensures a == b
  {
    QueryRoundTrip(a);
    QueryRoundTrip(b);
  }

  /** No component and one empty component give the same query string. */
  lemma EmptyQueryIsAmbiguous()
    ensures QueryString([]) == QueryString([[]])
  {
  }

  // ---------------------------------------------------------------- room for the options of a URI

  function Is(b: byte): byte -> bool {
    (x: byte) => x == b
  }

  function IsQuerySeparator(): byte -> bool {
    (x: byte) => x == QUESTION || x == AMPERSAND
  }

  /** Sum of the lengths of the pieces. */
  function Total(segs: seq<Bytes>): nat {
    if segs == [] then 0 else Total(segs[..|segs| - 1]) + |segs[|segs| - 1]|
  }

  lemma TotalSnoc(segs: seq<Bytes>, s: Bytes)
    ensures Total(segs + [s]) == Total(segs) + |s|
  {
    assert (segs + [s])[..|segs|] == segs;
  }

  /** Splitting yields one piece more than there are separators and keeps every other byte. */
  lemma {:induction false} SplitSizes(s: Bytes, sep: byte)
    ensures |Split(s, sep)| == |Filter(s, Is(sep))| + 1
    ensures Total(Split(s, sep)) + |Filter(s, Is(sep))| == |s|
  {
    if s == [] {
      TotalSnoc([], []);
    } else {
      var init, last := s[..|s| - 1], s[|s| - 1];
      SplitSizes(init, sep);
      assert s == init + [last];
      FilterSnoc(init, last, Is(sep));
      var r := Split(init, sep);
      var m := |r| - 1;
      TotalSnoc(r, []);
      TotalSnoc(r[..m], r[m]);
      TotalSnoc(r[..m], r[m] + [last]);
      assert r == r[..m] + [r[m]];
    }
  }

  /** Extension bytes of an option delta or length (section 3.1 of RFC 7252). */
  function Extension(n: nat): nat {
    if n < 13 then 0 else if n < 269 then 1 else 2
  }

  /** The largest delta or length that can be encoded, plus one. */
  const LIMIT: nat := 0x1_0000 + 269

  function Nibble(n: nat): (r: byte)
    ensures r < 15
  {
    if n < 13 then n else if n < 269 then 13 else 14
  }

  function ExtensionBytes(n: nat): Bytes
    requires n < LIMIT
  {
    if n < 13 then [] else if n < 269 then [n - 13] else [(n - 269) / 256, (n - 269) % 256]
  }

  /** An option as section 3.1 of RFC 7252 lays it out. */
  function EncodedOption(delta: nat, value: Bytes): Bytes
    requires delta < LIMIT && |value| < LIMIT
  {
    [16 * Nibble(delta) + Nibble(|value|)] + ExtensionBytes(delta) + ExtensionBytes(|value|) + value
  }

  /** Reads the number behind a nibble, and what follows its extension bytes. */
  function ReadNumber(nibble: nat, s: Bytes): Option<(nat, Bytes)> {
    if nibble < 13 then Some((nibble, s))
    else if nibble == 13 && |s| >= 1 then
      var low: nat := s[0];
      Some((low + 13, s[1..]))
    else if nibble == 14 && |s| >= 2 then
      var high: nat, low: nat := s[0], s[1];
      Some((256 * high + low + 269, s[2..]))
    else None
  }

  function ReadOption(s: Bytes): Option<(nat, Bytes, Bytes)> {
    if s == [] then None
    else
      match ReadNumber(s[0] / 16, s[1..])
      case None => None
      case Some((delta, t)) =>
        match ReadNumber(s[0] % 16, t)
        case None => None
        case Some((length, u)) => if |u| < length then None else Some((delta, u[..length], u[length..]))
  }

  lemma NumberReadsBack(n: nat, rest: Bytes)
    requires n < LIMIT
    ensures ReadNumber(Nibble(n), ExtensionBytes(n) + rest) == Some((n, rest))
    ensures |ExtensionBytes(n)| == Extension(n)
  {
    var s := ExtensionBytes(n) + rest;
    if n < 13 {
      assert s == rest;
    } else if n < 269 {
      assert s[1..] == rest;
    } else {
      assert s[2..] == rest;
    }
  }

  /** The layout can be read back, and its size is what the extensions say. */
  lemma OptionReadsBack(delta: nat, value: Bytes, rest: Bytes)
    requires delta < LIMIT && |value| < LIMIT
    ensures ReadOption(EncodedOption(delta, value) + rest) == Some((delta, value, rest))
    ensures |EncodedOption(delta, value)| == 1 + Extension(delta) + Extension(|value|) + |value|
  {
    hide ReadNumber, ExtensionBytes, Nibble, Extension;
    var first := 16 * Nibble(delta) + Nibble(|value|);
    var u := value + rest;
    var t := ExtensionBytes(|value|) + u;
    NumberReadsBack(delta, t);
    NumberReadsBack(|value|, u);
    var s := EncodedOption(delta, value) + rest;
    assert s == [first] + (ExtensionBytes(delta) + t);
    assert s[1..] == ExtensionBytes(delta) + t;
    assert first / 16 == Nibble(delta) && first % 16 == Nibble(|value|);
    assert u[..|value|] == value && u[|value|..] == rest;
  }

  /** Bytes of consecutive encoded options: one byte, the extensions and the value each. */
  function EncodedSize(previous: nat, options: seq<(nat, Bytes)>): nat
    decreases |options|
  {
    if options == [] then 0
    else
      var (number, value) := options[0];
      1 + Extension(if number < previous then 0 else number - previous) + Extension(|value|) + |value|
      + EncodedSize(number, options[1..])
  }

  lemma {:induction false} EncodedSizeBound(previous: nat, options: seq<(nat, Bytes)>)
    ensures EncodedSize(previous, options) <= Total(Values(options)) + 5 * |options|
    decreases |options|
  {
    if options != [] {
      EncodedSizeBound(options[0].0, options[1..]);
      TotalCons(options[0].1, Values(options[1..]));
      assert Values(options) == [options[0].1] + Values(options[1..]);
    }
  }

  function Values(options: seq<(nat, Bytes)>): (r: seq<Bytes>)
    ensures |r| == |options|
  {
    seq(|options|, i requires 0 <= i < |options| => options[i].1)
  }

  lemma {:induction false} TotalConcat(a: seq<Bytes>, b: seq<Bytes>)
    ensures Total(a + b) == Total(a) + Total(b)
  {
    if b == [] {
      assert a + b == a;
    } else {
      var n := |b| - 1;
      TotalConcat(a, b[..n]);
      assert (a + b)[..|a + b| - 1] == a + b[..n];
    }
  }

  lemma TotalCons(s: Bytes, segs: seq<Bytes>)
    ensures Total([s] + segs) == |s| + Total(segs)
  {
    TotalConcat([s], segs);
    TotalSnoc([], s);
    assert [] + [s] == [s];
  }

  /** `values` arise from `segs` by dropping some (dot segments) and shortening others (percent decoding). */
  predicate FitsIn(values: seq<Bytes>, segs: seq<Bytes>)
    decreases |segs|
  {
    values == []
    || (segs != []
        && (FitsIn(values, segs[..|segs| - 1])
            || (|values[|values| - 1]| <= |segs[|segs| - 1]|
                && FitsIn(values[..|values| - 1], segs[..|segs| - 1]))))
  }

  lemma {:induction false} FitsInBound(values: seq<Bytes>, segs: seq<Bytes>)
    requires FitsIn(values, segs)
    ensures Total(values) <= Total(segs) && |values| <= |segs|
    decreases |segs|
  {
    if values != [] {
      if FitsIn(values, segs[..|segs| - 1]) {
        FitsInBound(values, segs[..|segs| - 1]);
      } else {
        FitsInBound(values[..|values| - 1], segs[..|segs| - 1]);
      }
    }
  }

  /** The parts of a URI as its accessors return them. */
  datatype UriParts = UriParts(host: Option<Bytes>, port: Option<u16>, path: Option<Bytes>, query: Option<Bytes>)

  /** The buffer size computed by `into_options`. */
  function BufLen(u: UriParts): nat {
    (if u.host.Some? then |u.host.value| + 5 else 0)
    + (if u.port.Some? then 7 else 0)
    + (if u.path.Some? then |u.path.value| else 0)
    + (if u.path.Some? then (|Filter(u.path.value, Is(SLASH))| + 1) * 5 else 0)
    + (if u.query.Some? then |u.query.value| else 0)
    + (if u.query.Some? then (|Filter(u.query.value, IsQuerySeparator())| + 1) * 5 else 0)
  }

  /**
   What libcoap makes of a URI: at most a host option, at most a port option of up to two bytes, and
   options from the pieces of the path between slashes and of the query between ampersands.
   */
  ghost predicate OptionsOf(u: UriParts, options: seq<(nat, Bytes)>,
                            host: seq<Bytes>, port: seq<Bytes>, path: seq<Bytes>, query: seq<Bytes>) {
    && Values(options) == host + port + path + query
    && (host == [] || (u.host.Some? && |host| == 1 && |host[0]| <= |u.host.value|))
    && (port == [] || (u.port.Some? && |port| == 1 && |port[0]| <= 2))
    && (path == [] || (u.path.Some? && FitsIn(path, Split(u.path.value, SLASH))))
    && (query == [] || (u.query.Some? && FitsIn(query, Split(u.query.value, AMPERSAND))))
  }

  lemma {:induction false} FewerSeparators(s: Bytes)
    ensures |Filter(s, Is(AMPERSAND))| <= |Filter(s, IsQuerySeparator())|
  {
    if s != [] {
      var init, last := s[..|s| - 1], s[|s| - 1];
      FewerSeparators(init);
      assert s == init + [last];
      FilterSnoc(init, last, Is(AMPERSAND));
      FilterSnoc(init, last, IsQuerySeparator());
    }
  }

  lemma TotalOfFour(a: seq<Bytes>, b: seq<Bytes>, c: seq<Bytes>, d: seq<Bytes>)
    ensures Total(a + b + c + d) == Total(a) + Total(b) + Total(c) + Total(d)
  {
    TotalConcat(a + b + c, d);
    TotalConcat(a + b, c);
    TotalConcat(a, b);
  }

  lemma PiecesFit(values: seq<Bytes>, text: Bytes, sep: byte)
    requires FitsIn(values, Split(text, sep))
    ensures Total(values) + 5 * |values| <= |text| + 5 * (|Filter(text, Is(sep))| + 1)
  {
    hide FitsIn, Split, Filter;
    FitsInBound(values, Split(text, sep));
    SplitSizes(text, sep);
  }

  lemma SingleFits(values: seq<Bytes>, n: nat)
    requires |values| == 1 && |values[0]| <= n
    ensures Total(values) + 5 * |values| <= n + 5
  {
    assert values == [] + [values[0]];
    TotalSnoc([], values[0]);
  }

  /** The buffer holds the encoded options of every URI. */
  lemma BufferSuffices(u: UriParts, options: seq<(nat, Bytes)>,
                       host: seq<Bytes>, port: seq<Bytes>, path: seq<Bytes>, query: seq<Bytes>)
    requires OptionsOf(u, options, host, port, path, query)
    ensures EncodedSize(0, options) <= BufLen(u)
  {
    assert Total([]) == 0;
    hide FitsIn, Split, Filter, EncodedSize, Values, Total;
    EncodedSizeBound(0, options);
    TotalOfFour(host, port, path, query);
    if host != [] {
      SingleFits(host, |u.host.value|);
    }
    if port != [] {
      SingleFits(port, 2);
    }
    if path != [] {
      PiecesFit(path, u.path.value, SLASH);
    }
    if query != [] {
      PiecesFit(query, u.query.value, AMPERSAND);
      FewerSeparators(u.query.value);
    }
  }
}
