/** Engine identities: the origin of a workflow, encoded in the name the engine knows it by
    (src/origin.rs:238-285). */
module EngineIds {
  import opened Prelude
  import opened Text

  const U32_MAX: nat := 0xFFFF_FFFF

  type Nibble = n: nat | n < 16

  /** A UUID as its 32 hexadecimal digits. */
  type Uuid = s: seq<Nibble> | |s| == 32 witness seq(32, _ => 0)

  datatype Origin = Origin(databaseOid: nat, installation: Uuid)

  datatype Error = BadIdentity | BadOid | BadInstallation

  function HexChar(n: Nibble): char { if n < 10 then ('0' as int + n) as char else ('a' as int + n - 10) as char }

  function HexValue(c: char): Option<Nibble> {
    if '0' <= c <= '9' then Some(c as int - '0' as int)
    else if 'a' <= c <= 'f' then Some(c as int - 'a' as int + 10)
    else if 'A' <= c <= 'F' then Some(c as int - 'A' as int + 10)
    else None
  }

  predicate AllHex(s: string) { forall i :: 0 <= i < |s| ==> HexValue(s[i]).Some? }

  /** `Uuid::simple`: 32 lower-case digits. */
  function Simple(u: Uuid): (s: string)
    ensures |s| == 32
  {
    seq(32, i requires 0 <= i < 32 => HexChar(u[i]))
  }

  /** `Uuid::parse_str` of a string without hyphens; all its other forms need hyphens. */
  function ParseUuid(s: string): Option<Uuid> {
    if |s| != 32 || !AllHex(s) then None
    else Some(seq(32, i requires 0 <= i < 32 => HexValue(s[i]).value))
  }

  lemma HexCharValue(n: Nibble)
    ensures HexValue(HexChar(n)) == Some(n) && HexChar(n) !in {'-', ':'}
  {
  }

  lemma SimpleRoundTrip(u: Uuid)
    ensures ParseUuid(Simple(u)) == Some(u) && Avoids(Simple(u), '-') && Avoids(Simple(u), ':')
  {
    hide HexChar, HexValue;
    var s := Simple(u);
    forall i | 0 <= i < 32 ensures HexValue(s[i]) == Some(u[i]) && s[i] !in {'-', ':'} {
      HexCharValue(u[i]);
    }
    assert ParseUuid(s).value == u;
  }

  const PREFIX := "pgdf-"

  /** `engine_id` */
  function EngineId(o: Origin, localId: string): string {
    PREFIX + Digits(o.databaseOid) + "-" + Simple(o.installation) + "-" + localId
  }

  /** `engine_id_for_origin`: the control database itself uses bare ids. */
  function EngineIdFor(o: Option<Origin>, localId: string): string {
    match o
    case None => localId
    case Some(origin) => EngineId(origin, localId)
  }

  function Root(id: string): string { Split(id, "::")[0] }

  predicate IsLocalId(s: string) { |s| == 8 && AllHex(s) }

  /** `from_engine_id` */
  function FromEngineId(id: string): Result<Option<Origin>, Error> {
    var root := Root(id);
    if !(PREFIX <= root) then Ok(None)
    else
      var fields := Split(root[|PREFIX|..], "-");
      if |fields| != 3 || !IsLocalId(fields[2]) then Err(BadIdentity)
      else
        match ParseUnsigned(fields[0], U32_MAX)
        case None => Err(BadOid)
        case Some(oid) =>
          match ParseUuid(fields[1])
          case None => Err(BadInstallation)
          case Some(u) => Ok(Some(Origin(oid, u)))
  }

  // ----- searching after a token -----

  lemma OccursAfter(a: string, s: string, j: nat)
    requires Avoids(a, ':')
    ensures OccursAt(a + s, "::", j) <==> j >= |a| && OccursAt(s, "::", j - |a|)
  {
    if j + 2 <= |a + s| {
      if j >= |a| {
        assert (a + s)[j..j + 2] == s[j - |a|..j - |a| + 2];
      } else {
        assert (a + s)[j..j + 2][0] == a[j] != ':';
      }
    }
  }

  lemma FindAfter(a: string, s: string)
    requires Avoids(a, ':')
    ensures FindFrom(a + s, "::", 0) ==
            match FindFrom(s, "::", 0) case None => None case Some(i) => Some(|a| + i)
  {
    hide OccursAt, FindFrom, Avoids;
    var f, g := FindFrom(a + s, "::", 0), FindFrom(s, "::", 0);
    if g.Some? { OccursAfter(a, s, |a| + g.value); }
    if f.Some? { OccursAfter(a, s, f.value); }
  }

  /** What comes before the separators does not matter to them. */
  lemma RootAfter(a: string, s: string)
    requires Avoids(a, ':')
    ensures Root(a + s) == a + Root(s)
  {
    FindAfter(a, s);
    var i := FindFrom(s, "::", 0);
    if i.Some? {
      assert (a + s)[..|a| + i.value] == a + s[..i.value];
    }
  }

  lemma DigitsAvoid(n: nat)
    ensures Avoids(Digits(n), '-') && Avoids(Digits(n), ':')
  {
    assert forall i :: 0 <= i < |Digits(n)| ==> IsDigit(Digits(n)[i]);
  }

  lemma HexAvoids(s: string)
    requires AllHex(s)
    ensures Avoids(s, '-') && Avoids(s, ':')
  {
  }

  function Head(o: Origin): string { PREFIX + Digits(o.databaseOid) + "-" + Simple(o.installation) + "-" }

  lemma HeadHasNoColon(o: Origin)
    ensures Avoids(Head(o), ':')
  {
    hide Simple, Digits;
    DigitsAvoid(o.databaseOid);
    SimpleRoundTrip(o.installation);
  }

  lemma FieldsOf(o: Origin, t: string)
    ensures Split((Head(o) + t)[|PREFIX|..], "-") == [Digits(o.databaseOid), Simple(o.installation)] + Split(t, "-")
  {
    hide Simple, Digits, Split;
    var digits, simple := Digits(o.databaseOid), Simple(o.installation);
    DigitsAvoid(o.databaseOid);
    SimpleRoundTrip(o.installation);
    SplitFirstToken(digits, simple + "-" + t, "-", '-');
    SplitFirstToken(simple, t, "-", '-');
    assert (Head(o) + t)[|PREFIX|..] == digits + "-" + (simple + "-" + t);
  }

  /** Reading an engine id back, for every local id and whatever child suffixes follow: the
      origin comes back exactly when what stands before the first suffix is a local id, and
      nothing else is ever taken for one. */
  lemma FromEngineIdExactly(o: Origin, rest: string)
    requires o.databaseOid <= 4294967295
    ensures FromEngineId(EngineId(o, rest)) == if IsLocalId(Root(rest)) then Ok(Some(o)) else Err(BadIdentity)
  {
    hide Simple, Digits, IsLocalId, ParseUuid, ParseUnsigned;
    var t := Root(rest);
    HeadHasNoColon(o);
    assert EngineId(o, rest) == Head(o) + rest;
    RootAfter(Head(o), rest);
    hide Root;
    FieldsOf(o, t);
    PrintParseUnsigned(o.databaseOid, U32_MAX);
    SimpleRoundTrip(o.installation);
    LocalIdIsOneField(t);
  }

  lemma LocalIdIsOneField(t: string)
    ensures IsLocalId(t) ==> Split(t, "-") == [t]
    ensures |Split(t, "-")| == 1 ==> Split(t, "-") == [t]
  {
    if IsLocalId(t) {
      HexAvoids(t);
      NoneInToken(t, "-", '-');
    }
  }

  lemma LocalIdIsRoot(localId: string, suffix: string)
    requires IsLocalId(localId) && (suffix == "" || "::" <= suffix)
    ensures Root(localId + suffix) == localId
  {
    HexAvoids(localId);
    RootAfter(localId, suffix);
    if suffix != "" { assert OccursAt(suffix, "::", 0); }
  }

  /** The origin survives the round trip under any child suffix. */
  lemma RoundTrip(o: Origin, localId: string, suffix: string)
    requires o.databaseOid <= 4294967295 && IsLocalId(localId) && (suffix == "" || "::" <= suffix)
    ensures FromEngineId(EngineId(o, localId) + suffix) == Ok(Some(o))
  {
    LocalIdIsRoot(localId, suffix);
    FromEngineIdExactly(o, localId + suffix);
    hide FromEngineId, IsLocalId, Simple, Digits, Root;
    assert EngineId(o, localId) + suffix == EngineId(o, localId + suffix);
  }

  lemma DigitsInjective(a: nat, b: nat)
    requires Digits(a) == Digits(b)
    ensures a == b
  {
    DigitsRoundTrip(a);
    DigitsRoundTrip(b);
  }

  /** Different origins or different local ids never share an engine id. */
  lemma EngineIdInjective(a: Origin, b: Origin, x: string, y: string)
    requires EngineId(a, x) == EngineId(b, y)
    ensures a == b && x == y
  {
    hide Simple, Digits, SplitOnce;
    FirstField(a, x);
    FirstField(b, y);
    DigitsInjective(a.databaseOid, b.databaseOid);
    SimpleRoundTrip(a.installation);
    SimpleRoundTrip(b.installation);
    SplitOnceAtToken(Simple(a.installation), x, "-", '-');
    SplitOnceAtToken(Simple(b.installation), y, "-", '-');
  }

  lemma FirstField(o: Origin, x: string)
    ensures SplitOnce(EngineId(o, x)[|PREFIX|..], "-") ==
            Some((Digits(o.databaseOid), Simple(o.installation) + "-" + x))
  {
    hide Simple, Digits, SplitOnce;
    DigitsAvoid(o.databaseOid);
    SplitOnceAtToken(Digits(o.databaseOid), Simple(o.installation) + "-" + x, "-", '-');
    assert EngineId(o, x)[|PREFIX|..] == Digits(o.databaseOid) + "-" + (Simple(o.installation) + "-" + x);
  }

  /** A bare local id, with or without a child suffix, has no origin. */
  lemma BareIdHasNoOrigin(localId: string, suffix: string)
    requires IsLocalId(localId) && (suffix == "" || "::" <= suffix)
    ensures FromEngineId(localId + suffix) == Ok(None)
  {
    LocalIdIsRoot(localId, suffix);
    assert HexValue('p').None?;
    assert localId[0] != 'p';
  }

  /** Across all installations sharing the engine, the control database included, a name
      belongs to one workflow. */
  lemma NamesAreUnique(a: Option<Origin>, b: Option<Origin>, x: string, y: string)
    requires IsLocalId(x) && IsLocalId(y) && EngineIdFor(a, x) == EngineIdFor(b, y)
    ensures a == b && x == y
  {
    LocalIdStart(x);
    LocalIdStart(y);
    hide Simple, Digits, IsLocalId, EngineId;
    if a.Some? { EngineIdStart(a.value, x); }
    if b.Some? { EngineIdStart(b.value, y); }
    if a.Some? && b.Some? { EngineIdInjective(a.value, b.value, x, y); }
  }

  lemma LocalIdStart(x: string)
    requires IsLocalId(x)
    ensures x[..1] != "p"
  {
    assert HexValue('p').None? && HexValue(x[0]).Some?;
    assert x[..1][0] == x[0];
  }

  lemma EngineIdStart(o: Origin, x: string)
    ensures EngineId(o, x)[..1] == "p"
  {
    hide Simple, Digits;
  }

  // ----- the identifiers, character by character -----

  /** A local id is eight hexadecimal digits of either case. */
  lemma LocalIdIs(s: string)
    ensures IsLocalId(s) <==> |s| == 8 && forall i :: 0 <= i < |s| ==> IsHexDigit(s[i])
    ensures AllHex(s) <==> forall i :: 0 <= i < |s| ==> IsHexDigit(s[i])
  {
    assert forall i :: 0 <= i < |s| ==> (HexValue(s[i]).Some? <==> IsHexDigit(s[i]));
  }

  predicate IsHexDigit(c: char) { '0' <= c <= '9' || 'a' <= c <= 'f' || 'A' <= c <= 'F' }

  /** The prefix, the database in decimal, the installation in 32 lower-case digits, the local id. */
  lemma EngineIdIs(o: Origin, localId: string)
    ensures EngineId(o, localId) == "pgdf-" + Digits(o.databaseOid) + "-" + Simple(o.installation) + "-" + localId
    ensures forall i :: 0 <= i < 32 ==> Simple(o.installation)[i] == "0123456789abcdef"[o.installation[i]]
  {
    hide Digits;
    forall i | 0 <= i < 32 ensures Simple(o.installation)[i] == "0123456789abcdef"[o.installation[i]] {
      HexCharIs(o.installation[i]);
    }
  }

  lemma HexCharIs(n: Nibble)
    ensures HexChar(n) == "0123456789abcdef"[n]
  {
  }

  /** What does not begin with the prefix has no origin. */
  lemma ForeignIdHasNoOrigin(id: string)
    requires !("pgdf-" <= Root(id))
    ensures FromEngineId(id) == Ok(None)
  {
  }

  /** What begins with it is read by its fields, with whatever child suffix: three of them, a
      decimal number of 32 bits, 32 hexadecimal digits and a local id; else it is an error. */
  lemma FieldsDecide(a: string, b: string, c: string, suffix: string)
    requires Avoids(a, '-') && Avoids(b, '-') && Avoids(c, '-')
    requires Avoids(a, ':') && Avoids(b, ':') && Avoids(c, ':') && (suffix == "" || "::" <= suffix)
    ensures var r := FromEngineId("pgdf-" + a + "-" + b + "-" + c + suffix);
            if !IsLocalId(c) then r == Err(BadIdentity)
            else if ParseUnsigned(a, 4294967295).None? then r == Err(BadOid)
            else if |b| != 32 || !AllHex(b) then r == Err(BadInstallation)
            else
              && r.Ok? && r.value.Some? && Some(r.value.value.databaseOid) == ParseUnsigned(a, 4294967295)
              && forall i :: 0 <= i < 32 ==> Some(r.value.value.installation[i]) == HexValue(b[i])
  {
    ParsedUuidIs(b);
    hide HexValue, ParseUnsigned, Split, AllHex, ParseUuid;
    var root := "pgdf-" + a + "-" + b + "-" + c;
    assert Avoids(root, ':');
    RootOfSuffixed(root, suffix);
    assert root[|PREFIX|..] == a + "-" + (b + "-" + c);
    SplitFirstToken(a, b + "-" + c, "-", '-');
    SplitFirstToken(b, c, "-", '-');
    SplitOneToken(c, "-", '-');
    assert "pgdf-" + a + "-" + b + "-" + c + suffix == root + suffix;
  }

  lemma ParsedUuidIs(b: string)
    ensures ParseUuid(b).Some? <==> |b| == 32 && AllHex(b)
    ensures ParseUuid(b).Some? ==> forall i :: 0 <= i < 32 ==> Some(ParseUuid(b).value[i]) == HexValue(b[i])
  {
    hide HexValue;
  }

  lemma RootOfSuffixed(root: string, suffix: string)
    requires Avoids(root, ':') && (suffix == "" || "::" <= suffix)
    ensures Root(root + suffix) == root
  {
    RootAfter(root, suffix);
    if suffix != "" { assert OccursAt(suffix, "::", 0); }
  }
}
