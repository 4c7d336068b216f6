/** Secret bindings: checking them, and writing the resolved secrets into the query, the form
    body and the headers of a request (src/secrets.rs:9-14, src/secrets.rs:40-106,
    src/secrets.rs:125-325). */
module Secrets {
  import opened Prelude
  import opened Bytes

  /** A `String` of the source, as its UTF-8 bytes. */
  type Text = s: seq<byte> | IsUtf8(s) witness []

  // ----- ordered maps: `BTreeMap` as its entries in key order -----

  predicate Less(a: seq<byte>, b: seq<byte>) {
    b != [] && (a == [] || a[0] < b[0] || (a[0] == b[0] && Less(a[1..], b[1..])))
  }

  lemma {:induction false} LessTransitive(a: seq<byte>, b: seq<byte>, c: seq<byte>)
    requires Less(a, b) && Less(b, c)
    ensures Less(a, c)
  {
    if a != [] && a[0] == b[0] == c[0] { LessTransitive(a[1..], b[1..], c[1..]); }
  }

  lemma {:induction false} LessTotal(a: seq<byte>, b: seq<byte>)
    ensures Less(a, b) || a == b || Less(b, a)
  {
    if a != [] && b != [] && a[0] == b[0] {
      LessTotal(a[1..], b[1..]);
      assert a == [a[0]] + a[1..] && b == [b[0]] + b[1..];
    }
  }

  lemma {:induction false} LessIrreflexive(a: seq<byte>)
    ensures !Less(a, a)
  {
    if a != [] { LessIrreflexive(a[1..]); }
  }

  predicate AllAbove<V>(k: seq<byte>, m: seq<(Text, V)>) { forall i :: 0 <= i < |m| ==> Less(k, m[i].0) }

  predicate Ordered<V>(m: seq<(Text, V)>) {
    m == [] || (AllAbove(m[0].0, m[1..]) && Ordered(m[1..]))
  }

  predicate HasKey<V>(m: seq<(Text, V)>, k: seq<byte>) { exists i :: 0 <= i < |m| && m[i].0 == k }

  function MapOf<V>(m: seq<(Text, V)>): (r: map<Text, V>)
    ensures forall k :: k in r <==> HasKey(m, k)
  {
    if m == [] then map[] else MapOf(m[1..])[m[0].0 := m[0].1]
  }

  /** `BTreeMap::insert` */
  function Insert<V>(m: seq<(Text, V)>, k: Text, v: V): (r: seq<(Text, V)>)
    ensures |r| > 0
  {
    if m == [] || Less(k, m[0].0) then [(k, v)] + m
    else if m[0].0 == k then [(k, v)] + m[1..]
    else [m[0]] + Insert(m[1..], k, v)
  }

  lemma {:induction false} InsertAbove<V>(low: seq<byte>, m: seq<(Text, V)>, k: Text, v: V)
    requires AllAbove(low, m) && Less(low, k)
    ensures AllAbove(low, Insert(m, k, v))
  {
    hide Less, IsUtf8;
    if m != [] { InsertAbove(low, m[1..], k, v); }
  }

  lemma ConsMap<V>(e: (Text, V), m: seq<(Text, V)>)
    ensures MapOf([e] + m) == MapOf(m)[e.0 := e.1]
    ensures Ordered([e] + m) <==> AllAbove(e.0, m) && Ordered(m)
  {
    hide AllAbove, HasKey, IsUtf8;
    assert ([e] + m)[1..] == m;
  }

  lemma EmptyMap<V>(k: seq<byte>)
    ensures MapOf<V>([]) == map[] && Ordered<V>([]) && AllAbove<V>(k, [])
  {
  }

  lemma AboveCons<V>(low: seq<byte>, e: (Text, V), m: seq<(Text, V)>)
    requires Less(low, e.0) && AllAbove(e.0, m)
    ensures AllAbove(low, [e] + m)
  {
    forall i | 0 <= i < |[e] + m| ensures Less(low, ([e] + m)[i].0) {
      if i > 0 { LessTransitive(low, e.0, m[i - 1].0); }
    }
  }

  lemma {:induction false} InsertOrdered<V>(m: seq<(Text, V)>, k: Text, v: V)
    requires Ordered(m)
    ensures Ordered(Insert(m, k, v)) && MapOf(Insert(m, k, v)) == MapOf(m)[k := v]
  {
    hide Less, IsUtf8, Ordered, MapOf, HasKey, AllAbove;
    if m == [] {
      EmptyMap<V>(k);
      ConsMap((k, v), []);
      assert [(k, v)] + m == [(k, v)];
    } else {
      var e, tail := m[0], m[1..];
      assert m == [e] + tail;
      ConsMap(e, tail);
      if Less(k, e.0) {
        AboveCons(k, e, tail);
        ConsMap((k, v), m);
      } else if e.0 == k {
        ConsMap((k, v), tail);
      } else {
        InsertOrdered(tail, k, v);
        LessTotal(k, e.0);
        InsertAbove(e.0, tail, k, v);
        ConsMap(e, Insert(tail, k, v));
      }
    }
  }

  lemma {:induction false} OrderedDistinct<V>(m: seq<(Text, V)>, i: nat, j: nat)
    requires Ordered(m) && i < j < |m|
    ensures m[i].0 != m[j].0
  {
    if i > 0 {
      OrderedDistinct(m[1..], i - 1, j - 1);
    } else {
      assert m[1..][j - 1] == m[j];
      LessIrreflexive(m[0].0);
    }
  }

  // ----- application/x-www-form-urlencoded (section 5 of the WHATWG URL Standard) -----

  const AMPERSAND: byte := 0x26
  const EQUALS: byte := 0x3D
  const PLUS: byte := 0x2B
  const PERCENT: byte := 0x25
  const SPACE: byte := 0x20

  predicate IsPlain(b: byte) {
    b in {0x2A, 0x2D, 0x2E, 0x5F} || 0x30 <= b <= 0x39 || 0x41 <= b <= 0x5A || 0x61 <= b <= 0x7A
  }

  function UpperHexChar(d: nat): (b: byte)
    requires d < 16
    ensures HexValue(b) == Some(d) && b !in {AMPERSAND, EQUALS}
  {
    if d < 10 then 0x30 + d else 0x41 + d - 10
  }

  function EncodeByte(b: byte): (r: seq<byte>)
    ensures AMPERSAND !in r && EQUALS !in r
  {
    if IsPlain(b) then [b]
    else if b == SPACE then [PLUS]
    else [PERCENT, UpperHexChar(HighNibble(b)), UpperHexChar(LowNibble(b))]
  }

  function Encode(s: seq<byte>): (r: seq<byte>)
    ensures AMPERSAND !in r && EQUALS !in r
  {
    if s == [] then [] else EncodeByte(s[0]) + Encode(s[1..])
  }

  /** Plus signs are spaces; a percent sign not followed by two hexadecimal digits is itself. */
  function Decode(s: seq<byte>): seq<byte> {
    if s == [] then []
    else if s[0] == PLUS then [SPACE] + Decode(s[1..])
    else if s[0] == PERCENT && |s| >= 3 && HexValue(s[1]).Some? && HexValue(s[2]).Some?
    then [Join(HexValue(s[1]).value, HexValue(s[2]).value)] + Decode(s[3..])
    else [s[0]] + Decode(s[1..])
  }

  lemma DecodeEncodeByte(b: byte, rest: seq<byte>)
    ensures Decode(EncodeByte(b) + rest) == [b] + Decode(rest)
  {
    hide HexValue, HighNibble, LowNibble, Join;
    var s := EncodeByte(b) + rest;
    NibblesJoin(b);
    if IsPlain(b) || b == SPACE {
      assert s[1..] == rest;
    } else {
      assert s[3..] == rest;
    }
  }

  lemma {:induction false} DecodeEncode(s: seq<byte>)
    ensures Decode(Encode(s)) == s
  {
    if s != [] {
      DecodeEncodeByte(s[0], Encode(s[1..]));
      DecodeEncode(s[1..]);
    }
  }

  const REPLACEMENT: seq<byte> := [0xEF, 0xBF, 0xBD]

  /** How much of an ill-formed start one replacement character stands for. */
  function BadLen(s: seq<byte>): (n: nat)
    requires s != []
    ensures 1 <= n <= |s|
  {
    if |s| < 2 then 1
    else if 0xE0 <= s[0] <= 0xEF && IsContinuation(s[1]) &&
            (s[0] == 0xE0 ==> s[1] >= 0xA0) && (s[0] == 0xED ==> s[1] < 0xA0) then 2
    else if 0xF0 <= s[0] <= 0xF4 && IsContinuation(s[1]) &&
            (s[0] == 0xF0 ==> s[1] >= 0x90) && (s[0] == 0xF4 ==> s[1] < 0x90)
    then if |s| > 2 && IsContinuation(s[2]) then 3 else 2
    else 1
  }

  /** `from_utf8_lossy` */
  function Lossy(s: seq<byte>): seq<byte>
    decreases |s|
  {
    if s == [] then []
    else if CharLen(s) > 0 then s[..CharLen(s)] + Lossy(s[CharLen(s)..])
    else REPLACEMENT + Lossy(s[BadLen(s)..])
  }

  lemma {:induction false} LossyKeepsUtf8(s: seq<byte>)
    requires IsUtf8(s)
    ensures Lossy(s) == s
    decreases |s|
  {
    hide CharLen;
    if s != [] { LossyKeepsUtf8(s[CharLen(s)..]); }
  }

  function DecodeText(s: seq<byte>): seq<byte> { Lossy(Decode(s)) }

  lemma DecodeTextEncode(s: Text)
    ensures DecodeText(Encode(s)) == s
  {
    DecodeEncode(s);
    LossyKeepsUtf8(s);
  }

  type Pair = (seq<byte>, seq<byte>)

  function EncodePair(p: Pair): seq<byte> { Encode(p.0) + [EQUALS] + Encode(p.1) }

  /** What `Serializer` has written after these pairs. */
  function Serialized(pairs: seq<Pair>): (r: seq<byte>)
    ensures pairs == [] <==> r == []
  {
    if pairs == [] then []
    else
      var n := |pairs| - 1;
      if n == 0 then EncodePair(pairs[0]) else Serialized(pairs[..n]) + [AMPERSAND] + EncodePair(pairs[n])
  }

  function ParsePiece(piece: seq<byte>): seq<Pair> {
    if piece == [] then []
    else
      match SplitOnceAt(piece, EQUALS)
      case None => [(DecodeText(piece), [])]
      case Some((name, value)) => [(DecodeText(name), DecodeText(value))]
  }

  /** `query_pairs`, `form_urlencoded::parse` */
  function Parsed(s: seq<byte>): seq<Pair>
    decreases |s|
  {
    match SplitOnceAt(s, AMPERSAND)
    case None => ParsePiece(s)
    case Some((piece, rest)) => ParsePiece(piece) + Parsed(rest)
  }

  /** Whatever the two halves are, an ampersand between them keeps them apart. */
  lemma {:induction false} ParsedAppend(a: seq<byte>, b: seq<byte>)
    ensures Parsed(a + [AMPERSAND] + b) == Parsed(a) + Parsed(b)
    decreases |a|
  {
    hide ParsePiece, SplitOnceAt;
    match SplitOnceAt(a, AMPERSAND) {
      case None =>
        SplitOnceAtFirst(a, AMPERSAND, b);
      case Some((piece, rest)) =>
        ParsedAppend(rest, b);
        assert a + [AMPERSAND] + b == piece + [AMPERSAND] + (rest + [AMPERSAND] + b);
        SplitOnceAtFirst(piece, AMPERSAND, rest + [AMPERSAND] + b);
    }
  }

  lemma ParsedPair(p: (Text, Text))
    ensures Parsed(EncodePair(p)) == [p]
  {
    hide DecodeText, SplitOnceAt, Encode;
    SplitOnceAtFirst(Encode(p.0), EQUALS, Encode(p.1));
    assert AMPERSAND !in EncodePair(p);
    DecodeTextEncode(p.0);
    DecodeTextEncode(p.1);
  }

  /** Decoding gives back the pairs written, in order. */
  lemma {:induction false} ParsedSerialized(pairs: seq<(Text, Text)>)
    ensures Parsed(Serialized(pairs)) == pairs
  {
    hide EncodePair, Parsed, Serialized, IsUtf8;
    if pairs == [] {
      EmptyParses();
    } else {
      var n := |pairs| - 1;
      SerializedStep(pairs);
      ParsedPair(pairs[n]);
      if n > 0 {
        ParsedSerialized(pairs[..n]);
        ParsedAppend(Serialized(pairs[..n]), EncodePair(pairs[n]));
        assert pairs == pairs[..n] + [pairs[n]];
      }
    }
  }

  lemma SerializedStep(pairs: seq<Pair>)
    ensures Serialized([]) == []
    ensures |pairs| == 1 ==> Serialized(pairs) == EncodePair(pairs[0])
    ensures |pairs| > 1 ==>
              Serialized(pairs) == Serialized(pairs[..|pairs| - 1]) + [AMPERSAND] + EncodePair(pairs[|pairs| - 1])
  {
    hide EncodePair;
  }

  lemma EmptyParses()
    ensures Parsed([]) == [] && Serialized([]) == []
  {
  }

  // ----- bindings and their checks -----

  datatype Reference = Reference(server: Text, key: Text, prefix: Text)

  type Named = seq<(Text, Reference)>

  datatype Bindings = Bindings(headers: Named, query: Named, form: Named)

  datatype Options = Options(bindings: Option<Bindings>, formFields: Option<seq<(Text, Text)>>)

  /** The maps of the options are in key order, as `BTreeMap`s are. */
  predicate WellFormed(o: Options) {
    && (o.bindings.Some? ==>
      Ordered(o.bindings.value.headers) && Ordered(o.bindings.value.query) && Ordered(o.bindings.value.form))
    && (o.formFields.Some? ==> Ordered(o.formFields.value))
  }

  /** The header syntax, decided by a library: names (with the routing and framing headers
      refused) and values. */
  datatype Lib = Lib(headerNameOk: seq<byte> -> bool, headerValueOk: seq<byte> -> bool)

  /** Some character is a control character: C0, DEL or C1. */
  predicate HasControl(s: seq<byte>) {
    exists i :: 0 <= i < |s| && (s[i] < 0x20 || s[i] == 0x7F || (s[i] == 0xC2 && i + 1 < |s| && s[i + 1] < 0xA0))
  }

  predicate NameOk(s: seq<byte>) { s != [] && !HasControl(s) }

  predicate ReferenceOk(r: Reference) { NameOk(r.server) && NameOk(r.key) && EQUALS !in r.key }

  predicate HeadersOk(lib: Lib, headers: Named) {
    && (forall i :: 0 <= i < |headers| ==>
          ReferenceOk(headers[i].1) && lib.headerNameOk(headers[i].0) && lib.headerValueOk(headers[i].1.prefix))
    && (forall i, j :: 0 <= i < j < |headers| ==> Lower(headers[i].0) != Lower(headers[j].0))
  }

  predicate FieldsOk(fields: Named) {
    forall i :: 0 <= i < |fields| ==> ReferenceOk(fields[i].1) && NameOk(fields[i].0) && fields[i].1.prefix == []
  }

  predicate BindingsOk(lib: Lib, b: Bindings) { HeadersOk(lib, b.headers) && FieldsOk(b.query) && FieldsOk(b.form) }

  /** The loop of `SecretBindings::validate` over the headers. */
  method ValidateHeaders(lib: Lib, bindings: Named) returns (ok: bool)
    ensures ok <==> HeadersOk(lib, bindings)
  {
    hide ReferenceOk, IsUtf8, Lower;
    var headers: set<seq<byte>> := {};
    for i := 0 to |bindings|
      invariant HeadersOk(lib, bindings[..i])
      invariant forall h :: h in headers <==> exists k :: 0 <= k < i && Lower(bindings[k].0) == h
    {
      var (name, reference) := bindings[i];
      if !ReferenceOk(reference) || !lib.headerNameOk(name) || Lower(name) in headers
        || !lib.headerValueOk(reference.prefix) {
        return false;
      }
      headers := headers + {Lower(name)};
    }
    assert bindings[..|bindings|] == bindings;
    ok := true;
  }

  /** The loop over the query bindings chained with the form bindings. */
  method ValidateFields(fields: Named) returns (ok: bool)
    ensures ok <==> FieldsOk(fields)
  {
    hide ReferenceOk, NameOk, IsUtf8;
    for i := 0 to |fields|
      invariant FieldsOk(fields[..i])
    {
      var (name, reference) := fields[i];
      if !ReferenceOk(reference) || !NameOk(name) || reference.prefix != [] {
        return false;
      }
    }
    assert fields[..|fields|] == fields;
    ok := true;
  }

  lemma FieldsChained(a: Named, b: Named)
    ensures FieldsOk(a + b) <==> FieldsOk(a) && FieldsOk(b)
  {
    hide ReferenceOk, NameOk, IsUtf8;
    if FieldsOk(a + b) {
      assert forall k :: 0 <= k < |a| ==> (a + b)[k] == a[k];
      assert forall k :: 0 <= k < |b| ==> (a + b)[|a| + k] == b[k];
    }
  }

  /** `SecretBindings::validate`: header names are distinct whatever their case. */
  method ValidateBindings(lib: Lib, b: Bindings) returns (ok: bool)
    ensures ok <==> BindingsOk(lib, b)
  {
    hide HeadersOk, FieldsOk;
    ok := ValidateHeaders(lib, b.headers);
    if ok {
      ok := ValidateFields(b.query + b.form);
    }
    FieldsChained(b.query, b.form);
  }

  predicate FormMode(o: Options) { o.formFields.Some? || (o.bindings.Some? && o.bindings.value.form != []) }

  /** An ordinary header of the request: its name, and its value if that is a string. */
  type Header = (seq<byte>, Option<seq<byte>>)

  predicate FormHeaderOk(h: Header) {
    var name := Lower(h.0);
    && name != Ascii("content-length") && name != Ascii("transfer-encoding")
    && (name == Ascii("content-type") ==> h.1.Some? && Lower(h.1.value) == Ascii("application/x-www-form-urlencoded"))
  }

  predicate FormNameOk(o: Options, name: seq<byte>) {
    NameOk(name) && !(o.bindings.Some? && HasKey(o.bindings.value.form, name))
  }

  predicate FormOk(o: Options, hasBody: bool, verb: string, multipart: bool, headers: seq<Header>) {
    FormMode(o) ==>
      && !multipart && !hasBody && verb in {"POST", "PUT", "PATCH"}
      && (o.formFields.Some? ==> forall i :: 0 <= i < |o.formFields.value| ==> FormNameOk(o, o.formFields.value[i].0))
      && forall i :: 0 <= i < |headers| ==> FormHeaderOk(headers[i])
  }

  /** `SecretOptions::validate` */
  method Validate(lib: Lib, o: Options, hasBody: bool, verb: string, multipart: bool, headers: seq<Header>)
      returns (ok: bool)
    ensures ok <==>
              && (o.bindings.Some? ==> BindingsOk(lib, o.bindings.value))
              && FormOk(o, hasBody, verb, multipart, headers)
  {
    hide BindingsOk, FormHeaderOk, FormNameOk;
    if o.bindings.Some? {
      var valid := ValidateBindings(lib, o.bindings.value);
      if !valid {
        return false;
      }
    }
    if FormMode(o) {
      if multipart || hasBody || verb !in {"POST", "PUT", "PATCH"} {
        return false;
      }
      var fields := if o.formFields.Some? then o.formFields.value else [];
      for i := 0 to |fields|
        invariant forall k :: 0 <= k < i ==> FormNameOk(o, fields[k].0)
      {
        if !FormNameOk(o, fields[i].0) {
          return false;
        }
      }
      for i := 0 to |headers|
        invariant forall k :: 0 <= k < i ==> FormHeaderOk(headers[k])
      {
        if !FormHeaderOk(headers[i]) {
          return false;
        }
      }
    }
    ok := true;
  }

  /** A bound header has this name, whatever its case. */
  predicate Binds(headers: Named, name: seq<byte>) {
    exists i :: 0 <= i < |headers| && Lower(headers[i].0) == Lower(name)
  }

  predicate Active(b: Bindings) { b.headers != [] || b.query != [] || b.form != [] }

  predicate OrdinaryOk(b: Bindings, name: seq<byte>) {
    !(Active(b) && Lower(name) == Ascii("host")) && !Binds(b.headers, name)
  }

  function QueryOf(query: Option<seq<byte>>): seq<byte> { if query.Some? then query.value else [] }

  predicate DestinationsOk(lib: Lib, b: Bindings, query: Option<seq<byte>>, credential: Option<seq<byte>>,
                           ordinary: seq<seq<byte>>) {
    && BindingsOk(lib, b)
    && (forall i :: 0 <= i < |ordinary| ==> OrdinaryOk(b, ordinary[i]))
    && (credential.Some? ==> !Binds(b.headers, credential.value))
    && (forall i :: 0 <= i < |Parsed(QueryOf(query))| ==> !HasKey(b.query, Parsed(QueryOf(query))[i].0))
  }

  // ----- materialize -----

  type Catalog = map<Text, map<Text, Text>>

  function Lookup(catalog: Catalog, r: Reference): Option<Text> {
    if r.server in catalog && r.key in catalog[r.server] then Some(catalog[r.server][r.key]) else None
  }

  predicate Resolves(catalog: Catalog, bindings: Named) {
    forall i :: 0 <= i < |bindings| ==> Lookup(catalog, bindings[i].1).Some?
  }

  /** The names with the secrets behind them. */
  function Bound(catalog: Catalog, bindings: Named): (r: seq<(Text, Text)>)
    requires Resolves(catalog, bindings)
    ensures |r| == |bindings|
    ensures forall i :: 0 <= i < |r| ==> r[i].0 == bindings[i].0 && Some(r[i].1) == Lookup(catalog, bindings[i].1)
  {
    seq(|bindings|, i requires 0 <= i < |bindings| => (bindings[i].0, Lookup(catalog, bindings[i].1).value))
  }

  function HeaderValue(catalog: Catalog, r: Reference): seq<byte>
    requires Lookup(catalog, r).Some?
  {
    r.prefix + Lookup(catalog, r).value
  }

  predicate HeadersResolve(lib: Lib, catalog: Catalog, headers: Named) {
    forall i :: 0 <= i < |headers| ==>
      lib.headerNameOk(headers[i].0) && Lookup(catalog, headers[i].1).Some?
        && lib.headerValueOk(HeaderValue(catalog, headers[i].1))
  }

  function HeaderMap(lib: Lib, catalog: Catalog, headers: Named): (r: map<seq<byte>, seq<byte>>)
    requires HeadersResolve(lib, catalog, headers)
  {
    if headers == [] then map[]
    else
      var n := |headers| - 1;
      HeaderMap(lib, catalog, headers[..n])[Lower(headers[n].0) := HeaderValue(catalog, headers[n].1)]
  }

  /** Of validated bindings every header arrives with its own secret, and no other does. */
  lemma {:induction false} EveryHeaderArrives(lib: Lib, catalog: Catalog, headers: Named)
    requires HeadersOk(lib, headers) && HeadersResolve(lib, catalog, headers)
    ensures forall i :: 0 <= i < |headers| ==>
              Lower(headers[i].0) in HeaderMap(lib, catalog, headers) &&
              HeaderMap(lib, catalog, headers)[Lower(headers[i].0)] == HeaderValue(catalog, headers[i].1)
    ensures forall name :: name in HeaderMap(lib, catalog, headers) ==>
            exists i :: 0 <= i < |headers| && Lower(headers[i].0) == name
  {
    hide Lower, ReferenceOk, HeaderValue, Lookup, IsUtf8;
    if headers != [] {
      var n := |headers| - 1;
      var init := headers[..n];
      EveryHeaderArrives(lib, catalog, init);
      forall i | 0 <= i < n ensures Lower(headers[i].0) != Lower(headers[n].0) && init[i] == headers[i] {
      }
    }
  }

  datatype Resolved = Resolved(headers: map<seq<byte>, seq<byte>>, formBody: Option<seq<byte>>)

  /** The request being prepared; materializing rewrites its query. */
  class Request {
    var query: Option<seq<byte>>
    const credential: Option<seq<byte>>    // name of the endpoint's credential header

    constructor (query: Option<seq<byte>>, credential: Option<seq<byte>>)
      ensures this.query == query && this.credential == credential
    {
      this.query, this.credential := query, credential;
    }

    /** `validate_destinations` */
    method ValidateDestinations(lib: Lib, o: Options, ordinary: seq<seq<byte>>) returns (ok: bool)
      ensures ok <==> (o.bindings.Some? ==> DestinationsOk(lib, o.bindings.value, query, credential, ordinary))
    {
      hide BindingsOk, OrdinaryOk, Parsed, HasKey;
      if o.bindings.None? {
        return true;
      }
      var b := o.bindings.value;
      var valid := ValidateBindings(lib, b);
      if !valid {
        return false;
      }
      for i := 0 to |ordinary|
        invariant forall k :: 0 <= k < i ==> OrdinaryOk(b, ordinary[k])
      {
        if !OrdinaryOk(b, ordinary[i]) {
          return false;
        }
      }
      if credential.Some? && Binds(b.headers, credential.value) {
        return false;
      }
      var pairs := Parsed(QueryOf(query));
      for i := 0 to |pairs|
        invariant forall k :: 0 <= k < i ==> !HasKey(b.query, pairs[k].0)
      {
        if HasKey(b.query, pairs[i].0) {
          return false;
        }
      }
      ok := true;
    }

    /** The query bindings of `materialize`: all or nothing; the pairs already there stay, and
        the bound ones follow. */
    method BindQuery(bindings: Named, catalog: Catalog) returns (ok: bool)
      modifies this`query
      ensures ok <==> Resolves(catalog, bindings)
      ensures !ok ==> query == old(query)
      ensures ok ==> Parsed(QueryOf(query)) == Parsed(QueryOf(old(query))) + Bound(catalog, bindings)
      ensures bindings == [] ==> query == old(query)
    {
      hide Parsed, Lookup, EncodePair, IsUtf8;
      if bindings == [] {
        return true;
      }
      var written, wrote := SerializeBound(bindings, catalog);
      if !wrote {
        return false;
      }
      var bound := Bound(catalog, bindings);
      ParsedSerialized(bound);
      if query.Some? && query.value != [] {
        ParsedAppend(query.value, written);
        query := Some(query.value + [AMPERSAND] + written);
      } else {
        EmptyParses();
        query := Some(written);
      }
      ok := true;
    }

    /** `materialize` */
    method Materialize(lib: Lib, o: Options, catalog: Catalog) returns (r: Option<Resolved>)
      requires WellFormed(o)
      modifies this`query
      ensures r.Some? <==> o.bindings.Some? ==>
                && HeadersResolve(lib, catalog, o.bindings.value.headers)
                && Resolves(catalog, o.bindings.value.query) && Resolves(catalog, o.bindings.value.form)
      ensures r.Some? && o.bindings.None? ==> query == old(query) && r.value.headers == map[]
      ensures r.Some? && o.bindings.Some? ==>
                && r.value.headers == HeaderMap(lib, catalog, o.bindings.value.headers)
                && Parsed(QueryOf(query)) == Parsed(QueryOf(old(query))) + Bound(catalog, o.bindings.value.query)
      ensures r.Some? ==> (r.value.formBody.Some? <==> FormMode(o))
      ensures r.Some? && FormMode(o) ==> FormBodyOf(o, catalog, r.value.formBody.value)
    {
      hide Parsed, Serialized, HeaderMap, HeadersResolve, Lookup, Ordered, MapOf, IsUtf8;
      var headers: map<seq<byte>, seq<byte>> := map[];
      var fields := if o.formFields.Some? then o.formFields.value else [];
      EmptyMap<Text>([]);
      if o.bindings.Some? {
        var b := o.bindings.value;
        var resolved, fine := ResolveHeaders(lib, b.headers, catalog);
        if !fine {
          return None;
        }
        headers := resolved;
        var bound := BindQuery(b.query, catalog);
        if !bound {
          return None;
        }
        var inserted := InsertForm(fields, b.form, catalog);
        if inserted.None? {
          return None;
        }
        fields := inserted.value;
      }
      var formBody := None;
      if FormMode(o) {
        var body := Serialize(fields);
        ParsedSerialized(fields);
        formBody := Some(body);
      }
      r := Some(Resolved(headers, formBody));
    }
  }

  /** `append_pair` for every bound name in turn. */
  method SerializeBound(bindings: Named, catalog: Catalog) returns (written: seq<byte>, ok: bool)
    ensures ok <==> Resolves(catalog, bindings)
    ensures ok ==> written == Serialized(Bound(catalog, bindings))
  {
    hide Lookup, EncodePair, IsUtf8;
    written := [];
    assert bindings[..0] == [];
    for i := 0 to |bindings|
      invariant Resolves(catalog, bindings[..i])
      invariant written == Serialized(Bound(catalog, bindings[..i]))
    {
      var value := Lookup(catalog, bindings[i].1);
      if value.None? {
        return written, false;
      }
      written := written + (if written == [] then [] else [AMPERSAND]) + EncodePair((bindings[i].0, value.value));
      assert Bound(catalog, bindings[..i + 1])[..i] == Bound(catalog, bindings[..i]);
    }
    assert bindings[..|bindings|] == bindings;
    ok := true;
  }

  /** `extend_pairs` */
  method Serialize(pairs: seq<Pair>) returns (written: seq<byte>)
    ensures written == Serialized(pairs)
  {
    hide EncodePair;
    written := [];
    for i := 0 to |pairs|
      invariant written == Serialized(pairs[..i])
    {
      written := written + (if written == [] then [] else [AMPERSAND]) + EncodePair(pairs[i]);
      assert pairs[..i + 1][..i] == pairs[..i];
    }
    assert pairs[..|pairs|] == pairs;
  }

  method ResolveHeaders(lib: Lib, bindings: Named, catalog: Catalog)
      returns (headers: map<seq<byte>, seq<byte>>, ok: bool)
    ensures ok <==> HeadersResolve(lib, catalog, bindings)
    ensures ok ==> headers == HeaderMap(lib, catalog, bindings)
  {
    hide Lookup, Lower, IsUtf8;
    headers := map[];
    for i := 0 to |bindings|
      invariant HeadersResolve(lib, catalog, bindings[..i])
      invariant headers == HeaderMap(lib, catalog, bindings[..i])
    {
      var (name, reference) := bindings[i];
      if !lib.headerNameOk(name) || Lookup(catalog, reference).None?
        || !lib.headerValueOk(HeaderValue(catalog, reference)) {
        return headers, false;
      }
      headers := headers[Lower(name) := HeaderValue(catalog, reference)];
      assert bindings[..i + 1][..i] == bindings[..i];
    }
    assert bindings[..|bindings|] == bindings;
    ok := true;
  }

  /** The bound form fields put into the ordinary ones. */
  method InsertForm(start: seq<(Text, Text)>, bindings: Named, catalog: Catalog) returns (r: Option<seq<(Text, Text)>>)
    requires Ordered(start)
    ensures r.Some? <==> Resolves(catalog, bindings)
    ensures r.Some? ==> Ordered(r.value) && MapOf(r.value) == Overlaid(MapOf(start), Bound(catalog, bindings))
  {
    hide Lookup, Ordered, MapOf, Insert, IsUtf8;
    var fields := start;
    assert bindings[..0] == [];
    for i := 0 to |bindings|
      invariant Resolves(catalog, bindings[..i]) && Ordered(fields)
      invariant MapOf(fields) == Overlaid(MapOf(start), Bound(catalog, bindings[..i]))
    {
      var value := Lookup(catalog, bindings[i].1);
      if value.None? {
        return None;
      }
      InsertOrdered(fields, bindings[i].0, value.value);
      fields := Insert(fields, bindings[i].0, value.value);
      assert Bound(catalog, bindings[..i + 1])[..i] == Bound(catalog, bindings[..i]);
    }
    assert bindings[..|bindings|] == bindings;
    r := Some(fields);
  }

  function Overlaid(m: map<Text, Text>, pairs: seq<(Text, Text)>): map<Text, Text> {
    if pairs == [] then m
    else Overlaid(m, pairs[..|pairs| - 1])[pairs[|pairs| - 1].0 := pairs[|pairs| - 1].1]
  }

  function FieldsOf(o: Options): seq<(Text, Text)> { if o.formFields.Some? then o.formFields.value else [] }

  function BoundForm(o: Options, catalog: Catalog): seq<(Text, Text)>
    requires o.bindings.Some? ==> Resolves(catalog, o.bindings.value.form)
  {
    if o.bindings.Some? then Bound(catalog, o.bindings.value.form) else []
  }

  /** The body decodes to pairs in strict name order, which are the fields with the secrets. */
  predicate FormBodyOf(o: Options, catalog: Catalog, body: seq<byte>)
    requires o.bindings.Some? ==> Resolves(catalog, o.bindings.value.form)
  {
    exists fields: seq<(Text, Text)> {:trigger Ordered(fields)} ::
      Ordered(fields) && Parsed(body) == fields && MapOf(fields) == Overlaid(MapOf(FieldsOf(o)), BoundForm(o, catalog))
  }

  // ----- what the receiver reads -----

  /** Exactly one pair has this name. */
  predicate Once(pairs: seq<Pair>, name: seq<byte>) {
    exists i :: 0 <= i < |pairs| && pairs[i].0 == name && forall j :: 0 <= j < |pairs| && j != i ==> pairs[j].0 != name
  }

  lemma BoundDistinct(bindings: Named, catalog: Catalog, i: nat, j: nat)
    requires Ordered(bindings) && Resolves(catalog, bindings) && i < |bindings| && j < |bindings| && i != j
    ensures Bound(catalog, bindings)[i].0 != Bound(catalog, bindings)[j].0
  {
    hide Lookup, Ordered, IsUtf8;
    if i < j { OrderedDistinct(bindings, i, j); } else { OrderedDistinct(bindings, j, i); }
  }

  /** With checked destinations every bound name is in the final query exactly once, with its
      secret, after all the pairs that were there before. */
  lemma BoundNamesOnce(lib: Lib, b: Bindings, query: Option<seq<byte>>, credential: Option<seq<byte>>,
                       ordinary: seq<seq<byte>>,
                       catalog: Catalog, i: nat)
    requires DestinationsOk(lib, b, query, credential, ordinary) && Ordered(b.query) && Resolves(catalog, b.query)
             && i < |b.query|
    ensures Once(Parsed(QueryOf(query)) + Bound(catalog, b.query), b.query[i].0)
  {
    hide BindingsOk, Parsed, Lookup, Ordered, IsUtf8;
    var before, bound := Parsed(QueryOf(query)), Bound(catalog, b.query);
    var all: seq<Pair> := before + bound;
    var at := |before| + i;
    assert all[at].0 == b.query[i].0;
    forall j | 0 <= j < |all| && j != at ensures all[j].0 != all[at].0 {
      if j < |before| {
        assert !HasKey(b.query, before[j].0);
      } else {
        BoundDistinct(b.query, catalog, j - |before|, i);
      }
    }
  }

  lemma {:induction false} MapOfEntries(m: seq<(Text, Text)>, k: Text, v: Text)
    requires Ordered(m)
    ensures (k, v) in m <==> k in MapOf(m) && MapOf(m)[k] == v
  {
    hide Less, IsUtf8, HasKey;
    if m != [] {
      var tail := m[1..];
      assert m == [m[0]] + tail;
      MapOfEntries(tail, k, v);
      LessIrreflexive(m[0].0);
      assert forall j :: 0 <= j < |tail| ==> Less(m[0].0, tail[j].0);
    }
  }

  predicate Distinct(pairs: seq<Pair>) { forall i, j :: 0 <= i < j < |pairs| ==> pairs[i].0 != pairs[j].0 }

  lemma {:induction false} OverlaidEntries(m: map<Text, Text>, pairs: seq<(Text, Text)>, k: Text, v: Text)
    requires Distinct(pairs)
    requires forall i :: 0 <= i < |pairs| ==> pairs[i].0 !in m
    ensures (k in Overlaid(m, pairs) && Overlaid(m, pairs)[k] == v) <==> (k in m && m[k] == v) || (k, v) in pairs
    ensures k in Overlaid(m, pairs) <==> k in m || exists i :: 0 <= i < |pairs| && pairs[i].0 == k
  {
    hide IsUtf8;
    if pairs != [] {
      var n := |pairs| - 1;
      var front := pairs[..n];
      assert forall i :: 0 <= i < n ==> front[i] == pairs[i];
      OverlaidEntries(m, front, k, v);
      assert pairs == front + [pairs[n]];
    }
  }

  lemma OrderedPairsDistinct(fields: seq<(Text, Text)>)
    requires Ordered(fields)
    ensures Distinct(fields)
  {
    hide Ordered, IsUtf8;
    forall i: nat, j: nat | i < j < |fields| ensures fields[i].0 != fields[j].0 {
      OrderedDistinct(fields, i, j);
    }
  }

  lemma BoundFormDisjoint(o: Options, catalog: Catalog, hasBody: bool, verb: string, multipart: bool,
                          headers: seq<Header>)
    requires WellFormed(o) && FormMode(o) && FormOk(o, hasBody, verb, multipart, headers)
    requires o.bindings.Some? ==> Resolves(catalog, o.bindings.value.form)
    ensures Distinct(BoundForm(o, catalog))
    ensures forall i :: 0 <= i < |BoundForm(o, catalog)| ==> BoundForm(o, catalog)[i].0 !in MapOf(FieldsOf(o))
  {
    hide IsUtf8, Ordered, MapOf, Lookup, NameOk, FormHeaderOk;
    var bound := BoundForm(o, catalog);
    if o.bindings.Some? {
      forall i: nat, j: nat | i < j < |bound| ensures bound[i].0 != bound[j].0 {
        BoundDistinct(o.bindings.value.form, catalog, i, j);
      }
      forall i | 0 <= i < |bound| ensures bound[i].0 !in MapOf(FieldsOf(o)) {
        assert HasKey(o.bindings.value.form, bound[i].0);
        assert forall j :: 0 <= j < |FieldsOf(o)| ==> FormNameOk(o, FieldsOf(o)[j].0);
      }
    }
  }

  /** The form body of checked options decodes to exactly the ordinary fields and the bound
      secrets, every name once. */
  lemma FormDecodes(o: Options, catalog: Catalog, body: seq<byte>, hasBody: bool, verb: string, multipart: bool,
                    headers: seq<Header>)
    requires WellFormed(o) && FormMode(o) && FormOk(o, hasBody, verb, multipart, headers)
    requires o.bindings.Some? ==> Resolves(catalog, o.bindings.value.form)
    requires FormBodyOf(o, catalog, body)
    ensures forall p :: p in Parsed(body) <==> p in FieldsOf(o) || p in BoundForm(o, catalog)
    ensures Distinct(Parsed(body))
  {
    BoundFormDisjoint(o, catalog, hasBody, verb, multipart, headers);
    hide IsUtf8, Ordered, MapOf, FormOk, Parsed, BoundForm, Distinct;
    var bound := BoundForm(o, catalog);
    var fields: seq<(Text, Text)> :|
      Ordered(fields) && Parsed(body) == fields && MapOf(fields) == Overlaid(MapOf(FieldsOf(o)), bound);
    EmptyMap<Text>([]);
    assert Ordered(FieldsOf(o));
    forall k: Text, v: Text ensures (k, v) in fields <==> (k, v) in FieldsOf(o) || (k, v) in bound {
      MapOfEntries(fields, k, v);
      MapOfEntries(FieldsOf(o), k, v);
      OverlaidEntries(MapOf(FieldsOf(o)), bound, k, v);
    }
    OrderedPairsDistinct(fields);
  }

  /** `resolve`, given the named secrets of the servers: check the destinations, then
      materialize. */
  method Resolve(lib: Lib, o: Options, request: Request, ordinary: seq<seq<byte>>, catalog: Catalog)
      returns (r: Option<Resolved>)
    requires WellFormed(o)
    modifies request`query
    // it succeeds exactly when the destinations are free and every reference resolves
    ensures r.Some? <==>
              o.bindings.Some? ==>
                var b := o.bindings.value;
                && DestinationsOk(lib, b, old(request.query), request.credential, ordinary)
                && HeadersResolve(lib, catalog, b.headers) && Resolves(catalog, b.query) && Resolves(catalog, b.form)
    ensures r.Some? && o.bindings.None? ==> request.query == old(request.query) && r.value.headers == map[]
    ensures r.Some? && o.bindings.Some? ==>
              var b := o.bindings.value;
              && Resolves(catalog, b.query)
              && Parsed(QueryOf(request.query)) == Parsed(QueryOf(old(request.query))) + Bound(catalog, b.query)
              && forall i :: 0 <= i < |b.query| ==> Once(Parsed(QueryOf(request.query)), b.query[i].0)
    ensures r.Some? && o.bindings.Some? ==>
              && (forall i :: 0 <= i < |ordinary| ==> Lower(ordinary[i]) !in r.value.headers)
              && (request.credential.Some? ==> Lower(request.credential.value) !in r.value.headers)
    ensures r.Some? ==>
              && (r.value.formBody.Some? <==> FormMode(o))
              && (o.bindings.Some? ==> Resolves(catalog, o.bindings.value.form))
              && (FormMode(o) ==> FormBodyOf(o, catalog, r.value.formBody.value))
  {
    hide Parsed, HeaderMap, HeadersResolve, Resolves, Ordered, FormBodyOf, Once, HeadersOk, FieldsOk, HasKey, IsUtf8;
    var ok := request.ValidateDestinations(lib, o, ordinary);
    if !ok {
      return None;
    }
    r := request.Materialize(lib, o, catalog);
    if r.Some? && o.bindings.Some? {
      var b := o.bindings.value;
      forall i: nat | i < |b.query| ensures Once(Parsed(QueryOf(request.query)), b.query[i].0) {
        BoundNamesOnce(lib, b, old(request.query), request.credential, ordinary, catalog, i);
      }
      EveryHeaderArrives(lib, catalog, b.headers);
      assert forall i :: 0 <= i < |ordinary| ==> OrdinaryOk(b, ordinary[i]);
    }
  }
}
