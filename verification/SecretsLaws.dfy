/** What is checked, written and read back, in terms of the characters themselves
    (src/secrets.rs:9-325; section 5 of the WHATWG URL Standard). */
module SecretsLaws {
  import opened Prelude
  import opened Bytes
  import opened Secrets

  // ----- what is written -----

  /** Letters, digits and the four marks stay, a space is a plus sign, and every other byte is
      written with two upper-case hexadecimal digits. */
  lemma ByteIsWritten(b: byte)
    ensures var digits := Ascii("0123456789ABCDEF");
            EncodeByte(b) ==
              if 'A' as int <= b <= 'Z' as int || 'a' as int <= b <= 'z' as int || '0' as int <= b <= '9' as int
                 || b == '*' as int || b == '-' as int || b == '.' as int || b == '_' as int then [b]
              else if b == ' ' as int then Ascii("+")
              else Ascii("%") + [digits[b / 16], digits[b % 16]]
  {
    assert Ascii("+") == [0x2B] && Ascii("%") == [0x25];
    DigitIsWritten(b / 16);
    DigitIsWritten(b % 16);
    hide UpperHexChar, Ascii;
  }

  lemma DigitIsWritten(d: nat)
    requires d < 16
    ensures UpperHexChar(d) == Ascii("0123456789ABCDEF")[d]
  {
  }

  /** One pair, and a further pair. */
  lemma PairsAreWritten(a: Pair, b: Pair)
    ensures Serialized([a]) == Encode(a.0) + Ascii("=") + Encode(a.1)
    ensures Serialized([a, b]) == Serialized([a]) + Ascii("&") + Serialized([b])
  {
    assert Ascii("=") == [0x3D] && Ascii("&") == [0x26];
    assert [a, b][..1] == [a];
  }

  /** A resolved header is its prefix followed by the secret stored under the server and the key. */
  lemma HeaderHoldsSecret(lib: Lib, catalog: Catalog, headers: Named, i: nat)
    requires HeadersOk(lib, headers) && HeadersResolve(lib, catalog, headers) && i < |headers|
    ensures var (name, reference) := headers[i];
            && reference.server in catalog && reference.key in catalog[reference.server]
            && Lower(name) in HeaderMap(lib, catalog, headers)
            && HeaderMap(lib, catalog, headers)[Lower(name)] == reference.prefix +
              catalog[reference.server][reference.key]
  {
    EveryHeaderArrives(lib, catalog, headers);
  }

  /** References resolve exactly if the server's secrets have the key, and to what is stored there. */
  lemma BoundIsStored(catalog: Catalog, bindings: Named)
    ensures Resolves(catalog, bindings) <==>
              forall i :: 0 <= i < |bindings| ==>
                bindings[i].1.server in catalog && bindings[i].1.key in catalog[bindings[i].1.server]
    ensures Resolves(catalog, bindings) ==>
              forall i :: 0 <= i < |bindings| ==>
                Bound(catalog, bindings)[i] == (bindings[i].0, catalog[bindings[i].1.server][bindings[i].1.key])
  {
  }

  // ----- what is checked -----

  /** Nonempty, without control characters: U+0000 to U+001F and U+007F to U+009F. */
  predicate IsName(s: seq<byte>) {
    s != [] && forall i :: 0 <= i < |s| ==>
      s[i] >= 32 && s[i] != 127 && !(s[i] == 0xC2 && i + 1 < |s| && s[i + 1] <= 0x9F)
  }

  predicate IsReference(r: Reference) {
    IsName(r.server) && IsName(r.key) && ('=' as int) !in r.key
  }

  lemma ReferenceExactly(r: Reference)
    ensures ReferenceOk(r) <==> IsReference(r)
    ensures forall s :: NameOk(s) <==> IsName(s)
  {
    assert forall s :: NameOk(s) <==> IsName(s);
  }

  /** Bindings are accepted exactly then. */
  lemma BindingsExactly(lib: Lib, b: Bindings)
    ensures BindingsOk(lib, b) <==>
              && (forall i :: 0 <= i < |b.headers| ==>
                    IsReference(b.headers[i].1) && lib.headerNameOk(b.headers[i].0) &&
                    lib.headerValueOk(b.headers[i].1.prefix))
              && (forall i, j :: 0 <= i < j < |b.headers| ==> Lower(b.headers[i].0) != Lower(b.headers[j].0))
              && (forall i :: 0 <= i < |b.query| ==>
                    IsReference(b.query[i].1) && IsName(b.query[i].0) && b.query[i].1.prefix == [])
              && (forall i :: 0 <= i < |b.form| ==>
                    IsReference(b.form[i].1) && IsName(b.form[i].0) && b.form[i].1.prefix == [])
  {
    hide ReferenceOk, NameOk, IsReference, IsName, Lower;
    forall r ensures ReferenceOk(r) <==> IsReference(r) { ReferenceExactly(r); }
    forall s ensures NameOk(s) <==> IsName(s) { NameExactly(s); }
  }

  lemma NameExactly(s: seq<byte>)
    ensures NameOk(s) <==> IsName(s)
  {
  }

  /** Form options fit a request exactly then: if there are form fields or form bindings, there is
      neither a body nor parts, the method carries a body, names are names and in no map twice, and
      the headers leave the framing alone and declare nothing else than a form. */
  lemma FormExactly(o: Options, hasBody: bool, verb: string, multipart: bool, headers: seq<Header>)
    ensures FormOk(o, hasBody, verb, multipart, headers) <==>
              ((o.formFields.Some? || (o.bindings.Some? && |o.bindings.value.form| > 0)) ==>
                && !multipart && !hasBody && (verb == "POST" || verb == "PUT" || verb == "PATCH")
                && (forall i :: o.formFields.Some? && 0 <= i < |o.formFields.value| ==>
                      IsName(o.formFields.value[i].0) &&
                      forall j :: o.bindings.Some? && 0 <= j < |o.bindings.value.form| ==>
                        o.bindings.value.form[j].0 != o.formFields.value[i].0)
                && (forall i :: 0 <= i < |headers| ==>
                      && Lower(headers[i].0) != Ascii("content-length")
                      && Lower(headers[i].0) != Ascii("transfer-encoding")
                      && (Lower(headers[i].0) == Ascii("content-type") ==>
                            headers[i].1.Some? &&
                            Lower(headers[i].1.value) == Ascii("application/x-www-form-urlencoded"))))
  {
    hide NameOk, IsName, Lower, Ascii, IsUtf8;
    forall s ensures NameOk(s) <==> IsName(s) { NameExactly(s); }
  }

  /** A form body is sent exactly if there are form fields, even none, or form bindings. */
  lemma FormBodySent(o: Options)
    ensures FormMode(o) <==> o.formFields != None || (o.bindings.Some? && |o.bindings.value.form| > 0)
  {
  }

  /** Destinations are free exactly then: no ordinary header is a bound one or, if anything is
      bound, Host; the endpoint's credential is not a bound header; and no bound query name is
      there already. */
  lemma DestinationsExactly(lib: Lib, b: Bindings, query: Option<seq<byte>>, credential: Option<seq<byte>>,
                            ordinary: seq<seq<byte>>)
    ensures DestinationsOk(lib, b, query, credential, ordinary) <==>
              && BindingsOk(lib, b)
              && (forall i, k :: 0 <= i < |ordinary| && 0 <= k < |b.headers| ==>
                    Lower(ordinary[i]) != Lower(b.headers[k].0))
              && (|b.headers| + |b.query| + |b.form| > 0 ==>
                    forall i :: 0 <= i < |ordinary| ==> Lower(ordinary[i]) != Ascii("host"))
              && (forall k :: credential.Some? && 0 <= k < |b.headers| ==>
                Lower(credential.value) != Lower(b.headers[k].0))
              && (forall i, k :: query.Some? && 0 <= i < |Parsed(query.value)| && 0 <= k < |b.query| ==>
                    Parsed(query.value)[i].0 != b.query[k].0)
  {
    hide BindingsOk, Lower, Ascii, Parsed, IsUtf8, OrdinaryOk, HasKey, Binds, QueryOf;
    AllOrdinaryExactly(b, ordinary);
    QueryIsFree(b, query);
    if credential.Some? { BindsExactly(b.headers, credential.value); }
  }

  lemma AllOrdinaryExactly(b: Bindings, ordinary: seq<seq<byte>>)
    ensures (forall i :: 0 <= i < |ordinary| ==> OrdinaryOk(b, ordinary[i])) <==>
              && (forall i, k :: 0 <= i < |ordinary| && 0 <= k < |b.headers| ==>
                    Lower(ordinary[i]) != Lower(b.headers[k].0))
              && (|b.headers| + |b.query| + |b.form| > 0 ==>
                    forall i :: 0 <= i < |ordinary| ==> Lower(ordinary[i]) != Ascii("host"))
  {
    hide Lower, Ascii, OrdinaryOk, IsUtf8;
    forall i | 0 <= i < |ordinary|
      ensures OrdinaryOk(b, ordinary[i]) <==>
                && (forall k :: 0 <= k < |b.headers| ==> Lower(ordinary[i]) != Lower(b.headers[k].0))
                && (|b.headers| + |b.query| + |b.form| > 0 ==> Lower(ordinary[i]) != Ascii("host"))
    {
      OrdinaryExactly(b, ordinary[i]);
    }
  }

  lemma OrdinaryExactly(b: Bindings, name: seq<byte>)
    ensures OrdinaryOk(b, name) <==>
              && (forall k :: 0 <= k < |b.headers| ==> Lower(name) != Lower(b.headers[k].0))
              && (|b.headers| + |b.query| + |b.form| > 0 ==> Lower(name) != Ascii("host"))
  {
    hide Lower, Ascii, IsUtf8;
  }

  lemma BindsExactly(headers: Named, name: seq<byte>)
    ensures Binds(headers, name) <==> exists k :: 0 <= k < |headers| && Lower(headers[k].0) == Lower(name)
  {
  }

  lemma QueryIsFree(b: Bindings, query: Option<seq<byte>>)
    ensures (forall i :: 0 <= i < |Parsed(QueryOf(query))| ==> !HasKey(b.query, Parsed(QueryOf(query))[i].0)) <==>
              (forall i, k :: query.Some? && 0 <= i < |Parsed(query.value)| && 0 <= k < |b.query| ==>
                 Parsed(query.value)[i].0 != b.query[k].0)
  {
    EmptyParses();
    hide Parsed, IsUtf8, HasKey;
    var pairs := Parsed(QueryOf(query));
    forall i | 0 <= i < |pairs|
      ensures HasKey(b.query, pairs[i].0) <==> exists k :: 0 <= k < |b.query| && b.query[k].0 == pairs[i].0
    {
      HasKeyExactly(b.query, pairs[i].0);
    }
    if query.Some? {
      assert pairs == Parsed(query.value);
    } else {
      assert pairs == [];
    }
  }

  lemma HasKeyExactly(m: Named, name: seq<byte>)
    ensures HasKey(m, name) <==> exists k :: 0 <= k < |m| && m[k].0 == name
  {
  }

  // ----- reading -----

  lemma ReplacementIsUtf8()
    ensures IsUtf8(REPLACEMENT)
  {
    assert CharLen(REPLACEMENT) == 3 && REPLACEMENT[3..] == [];
  }

  /** What is read is text whatever was sent, and text is read as it is. */
  lemma {:induction false} LossyIsUtf8(s: seq<byte>)
    ensures IsUtf8(Lossy(s)) && (Lossy(s) == s <==> IsUtf8(s))
    decreases |s|
  {
    if s != [] {
      if CharLen(s) > 0 {
        FirstCharIsUtf8(s);
        LossyIsUtf8(s[CharLen(s)..]);
        Utf8Concat(s[..CharLen(s)], Lossy(s[CharLen(s)..]));
        assert s == s[..CharLen(s)] + s[CharLen(s)..];
      } else {
        LossyIsUtf8(s[BadLen(s)..]);
        ReplacementIsUtf8();
        Utf8Concat(REPLACEMENT, Lossy(s[BadLen(s)..]));
      }
    }
  }

  lemma PlusIsRead(rest: seq<byte>)
    ensures Decode(Ascii("+") + rest) == Ascii(" ") + Decode(rest)
  {
    assert Ascii("+") == [0x2B] && Ascii(" ") == [0x20];
    hide Ascii;
    assert ([0x2B] + rest)[1..] == rest;
  }

  /** A percent sign and two hexadecimal digits, of either case, are the byte. */
  lemma PercentIsRead(rest: seq<byte>, hi: byte, lo: byte)
    requires HexValue(hi).Some? && HexValue(lo).Some?
    ensures Decode(Ascii("%") + [hi, lo] + rest) == [HexValue(hi).value * 16 + HexValue(lo).value] + Decode(rest)
  {
    assert Ascii("%") == [0x25];
    hide Ascii;
    var s := [0x25] + [hi, lo] + rest;
    DecodePercent(s);
    hide Decode, HexValue;
    assert s[3..] == rest;
  }

  lemma DecodePercent(s: seq<byte>)
    requires |s| >= 3 && s[0] == 0x25 && HexValue(s[1]).Some? && HexValue(s[2]).Some?
    ensures Decode(s) == [HexValue(s[1]).value * 16 + HexValue(s[2]).value] + Decode(s[3..])
  {
    hide HexValue;
  }

  /** A stray percent sign is itself. */
  lemma StrayPercentIsRead(rest: seq<byte>, hi: byte)
    requires HexValue(hi).None?
    ensures Decode(Ascii("%") + [hi] + rest) == Ascii("%") + Decode([hi] + rest)
  {
    assert Ascii("%") == [0x25];
    hide Ascii, HexValue;
    assert ([0x25] + [hi] + rest)[1..] == [hi] + rest;
  }
}
