/** The standard base64 alphabet with required padding and no stray bits (section 4 of
    RFC 4648), and the tolerant decoding of multipart parts
    (src/activities/execute_multipart.rs:31-53). */
module Base64 {
  import opened Prelude
  import opened Bytes

  const PAD: byte := 0x3D

  function Symbol(v: nat): (c: byte)
    requires v < 64
    ensures c != PAD && !IsWhitespace(c)
  {
    if v < 26 then 0x41 + v
    else if v < 52 then 0x61 + v - 26
    else if v < 62 then 0x30 + v - 52
    else if v == 62 then 0x2B
    else 0x2F
  }

  function Value(c: byte): (v: Option<nat>)
    ensures v.Some? ==> v.value < 64
  {
    if 0x41 <= c <= 0x5A then Some(c - 0x41)
    else if 0x61 <= c <= 0x7A then Some(c - 0x61 + 26)
    else if 0x30 <= c <= 0x39 then Some(c - 0x30 + 52)
    else if c == 0x2B then Some(62)
    else if c == 0x2F then Some(63)
    else None
  }

  lemma SymbolValue(v: nat)
    requires v < 64
    ensures Value(Symbol(v)) == Some(v)
  {
  }

  lemma ValueSymbol(c: byte)
    ensures Value(c).Some? ==> Symbol(Value(c).value) == c
    ensures Value(PAD).None?
  {
  }

  // Three bytes are four values of six bits; the missing bits of a short group are zero.

  function V0(a: byte): (v: nat) ensures v < 64 { a / 4 }
  function V1(a: byte, b: byte): (v: nat) ensures v < 64 { a % 4 * 16 + b / 16 }
  function V2(b: byte, c: byte): (v: nat) ensures v < 64 { b % 16 * 4 + c / 64 }
  function V3(c: byte): (v: nat) ensures v < 64 { c % 64 }

  function B0(v: nat, w: nat): byte requires v < 64 && w < 64 { v * 4 + w / 16 }
  function B1(v: nat, w: nat): byte requires v < 64 && w < 64 { v % 16 * 16 + w / 4 }
  function B2(v: nat, w: nat): byte requires v < 64 && w < 64 { v % 4 * 64 + w }

  lemma FirstByte(a: byte, b: byte)
    ensures B0(V0(a), V1(a, b)) == a && V1(a, 0) % 16 == 0
  {
  }

  lemma SecondByte(a: byte, b: byte, c: byte)
    ensures B1(V1(a, b), V2(b, c)) == b && V2(b, 0) % 4 == 0
  {
    assert V1(a, b) % 16 == b / 16;
    assert V2(b, c) / 4 == b % 16;
    hide V1, V2;
  }

  lemma ThirdByte(b: byte, c: byte)
    ensures B2(V2(b, c), V3(c)) == c
  {
  }

  lemma BytesOfValues(a: byte, b: byte, c: byte)
    ensures B0(V0(a), V1(a, b)) == a && B1(V1(a, b), V2(b, c)) == b && B2(V2(b, c), V3(c)) == c
    ensures V1(a, 0) % 16 == 0 && V2(b, 0) % 4 == 0
  {
    hide V0, V1, V2, V3, B0, B1, B2;
    FirstByte(a, b);
    SecondByte(a, b, c);
    ThirdByte(b, c);
  }

  lemma ValuesOfBytes(v: nat, w: nat, x: nat, y: nat)
    requires v < 64 && w < 64 && x < 64 && y < 64
    ensures V0(B0(v, w)) == v && V1(B0(v, w), B1(w, x)) == w && V2(B1(w, x), B2(x, y)) == x && V3(B2(x, y)) == y
    ensures w % 16 == 0 ==> V1(B0(v, w), 0) == w
    ensures x % 4 == 0 ==> V2(B1(w, x), 0) == x
  {
  }

  function Encode(b: seq<byte>): seq<byte> {
    if b == [] then []
    else if |b| == 1 then [Symbol(V0(b[0])), Symbol(V1(b[0], 0)), PAD, PAD]
    else if |b| == 2 then [Symbol(V0(b[0])), Symbol(V1(b[0], b[1])), Symbol(V2(b[1], 0)), PAD]
    else [Symbol(V0(b[0])), Symbol(V1(b[0], b[1])), Symbol(V2(b[1], b[2])), Symbol(V3(b[2]))] + Encode(b[3..])
  }

  /** The last group when it is padded. */
  function DecodePadded(s: seq<byte>): Option<seq<byte>>
    requires |s| == 4
  {
    var (v, w) := (Value(s[0]), Value(s[1]));
    if v.None? || w.None? then None
    else if s[2] == PAD then (if w.value % 16 == 0 then Some([B0(v.value, w.value)]) else None)
    else
      var x := Value(s[2]);
      if x.None? || x.value % 4 != 0 then None else Some([B0(v.value, w.value), B1(w.value, x.value)])
  }

  function DecodeGroup(s: seq<byte>): Option<seq<byte>>
    requires |s| == 4
  {
    match (Value(s[0]), Value(s[1]), Value(s[2]), Value(s[3]))
    case (Some(v), Some(w), Some(x), Some(y)) => Some([B0(v, w), B1(w, x), B2(x, y)])
    case _ => None
  }

  function Decode(s: seq<byte>): Option<seq<byte>> {
    if s == [] then Some([])
    else if |s| < 4 then None
    else if |s| == 4 && s[3] == PAD then DecodePadded(s)
    else
      match (DecodeGroup(s[..4]), Decode(s[4..]))
      case (Some(group), Some(rest)) => Some(group + rest)
      case _ => None
  }

  lemma GroupRoundTrip(a: byte, b: byte, c: byte)
    ensures DecodeGroup([Symbol(V0(a)), Symbol(V1(a, b)), Symbol(V2(b, c)), Symbol(V3(c))]) == Some([a, b, c])
  {
    hide V0, V1, V2, V3, B0, B1, B2, Value, Symbol;
    SymbolValue(V0(a));
    SymbolValue(V1(a, b));
    SymbolValue(V2(b, c));
    SymbolValue(V3(c));
    BytesOfValues(a, b, c);
  }

  lemma PaddedRoundTrip(a: byte, b: byte)
    ensures DecodePadded([Symbol(V0(a)), Symbol(V1(a, b)), Symbol(V2(b, 0)), PAD]) == Some([a, b])
    ensures DecodePadded([Symbol(V0(a)), Symbol(V1(a, 0)), PAD, PAD]) == Some([a])
  {
    hide V0, V1, V2, V3, B0, B1, B2, Value, Symbol;
    SymbolValue(V0(a));
    SymbolValue(V1(a, b));
    SymbolValue(V1(a, 0));
    SymbolValue(V2(b, 0));
    BytesOfValues(a, b, 0);
    BytesOfValues(a, 0, 0);
  }

  lemma NothingDecodes()
    ensures Decode([]) == Some([]) && Encode([]) == []
  {
  }

  lemma DecodeFinal(s: seq<byte>)
    requires |s| == 4 && s[3] == PAD
    ensures Decode(s) == DecodePadded(s)
  {
  }

  lemma ShortRoundTrip(b: seq<byte>)
    requires 0 < |b| <= 2
    ensures Decode(Encode(b)) == Some(b)
  {
    hide V0, V1, V2, V3, Decode, DecodePadded, Symbol, Value;
    DecodeFinal(Encode(b));
    if |b| == 1 {
      PaddedRoundTrip(b[0], 0);
      assert b == [b[0]];
    } else {
      PaddedRoundTrip(b[0], b[1]);
      assert b == [b[0], b[1]];
    }
  }

  lemma DecodeGroupFirst(group: seq<byte>, rest: seq<byte>)
    requires |group| == 4 && group[3] != PAD && DecodeGroup(group).Some? && Decode(rest).Some?
    ensures Decode(group + rest) == Some(DecodeGroup(group).value + Decode(rest).value)
  {
    hide DecodeGroup;
    assert (group + rest)[..4] == group && (group + rest)[4..] == rest;
  }

  lemma {:induction false} DecodeEncode(b: seq<byte>)
    ensures Decode(Encode(b)) == Some(b)
  {
    hide V0, V1, V2, V3, Decode, DecodeGroup, Symbol;
    if b == [] {
      NothingDecodes();
    } else if |b| <= 2 {
      ShortRoundTrip(b);
    } else {
      GroupRoundTrip(b[0], b[1], b[2]);
      DecodeEncode(b[3..]);
      DecodeGroupFirst([Symbol(V0(b[0])), Symbol(V1(b[0], b[1])), Symbol(V2(b[1], b[2])), Symbol(V3(b[2]))],
        Encode(b[3..]));
      assert b == [b[0], b[1], b[2]] + b[3..];
    }
  }

  lemma GroupCanonical(s: seq<byte>)
    requires |s| == 4 && DecodeGroup(s).Some?
    ensures var b := DecodeGroup(s).value;
            |b| == 3 && s == [Symbol(V0(b[0])), Symbol(V1(b[0], b[1])), Symbol(V2(b[1], b[2])), Symbol(V3(b[2]))]
  {
    hide V0, V1, V2, V3, B0, B1, B2, Value, Symbol;
    ValueSymbol(s[0]);
    ValueSymbol(s[1]);
    ValueSymbol(s[2]);
    ValueSymbol(s[3]);
    ValuesOfBytes(Value(s[0]).value, Value(s[1]).value, Value(s[2]).value, Value(s[3]).value);
  }

  lemma PaddedCanonical(s: seq<byte>)
    requires |s| == 4 && s[3] == PAD && DecodePadded(s).Some?
    ensures Encode(DecodePadded(s).value) == s
  {
    hide V0, V1, V2, V3, B0, B1, B2, Value, Symbol;
    ValueSymbol(s[0]);
    ValueSymbol(s[1]);
    ValueSymbol(s[2]);
    if s[2] == PAD {
      ValuesOfBytes(Value(s[0]).value, Value(s[1]).value, 0, 0);
    } else {
      ValuesOfBytes(Value(s[0]).value, Value(s[1]).value, Value(s[2]).value, 0);
    }
  }

  lemma DecodeSplits(s: seq<byte>)
    requires s != [] && Decode(s).Some?
    ensures |s| >= 4
    ensures !(|s| == 4 && s[3] == PAD) ==>
              DecodeGroup(s[..4]).Some? && Decode(s[4..]).Some?
                && Decode(s).value == DecodeGroup(s[..4]).value + Decode(s[4..]).value
  {
    hide DecodeGroup, DecodePadded;
  }

  lemma EncodeJoins(group: seq<byte>, rest: seq<byte>)
    requires |group| == 3
    ensures Encode(group + rest) ==
            [Symbol(V0(group[0])), Symbol(V1(group[0], group[1])), Symbol(V2(group[1], group[2])),
              Symbol(V3(group[2]))] + Encode(rest)
  {
    hide V0, V1, V2, V3, Symbol;
    assert (group + rest)[3..] == rest;
  }

  /** Only what encoding produces is accepted. */
  lemma {:induction false} EncodeDecode(s: seq<byte>)
    requires Decode(s).Some?
    ensures Encode(Decode(s).value) == s
  {
    hide Decode, Encode, DecodeGroup, DecodePadded, V0, V1, V2, V3, Symbol;
    if s == [] {
      NothingDecodes();
    } else {
      DecodeSplits(s);
      if |s| == 4 && s[3] == PAD {
        DecodeFinal(s);
        PaddedCanonical(s);
      } else {
        GroupCanonical(s[..4]);
        EncodeDecode(s[4..]);
        EncodeJoins(DecodeGroup(s[..4]).value, Decode(s[4..]).value);
        assert s == s[..4] + s[4..];
      }
    }
  }

  /** The alphabet: capitals, small letters, digits, plus and slash. */
  lemma SymbolsAre(v: nat)
    requires v < 64
    ensures v < 26 ==> Symbol(v) == 'A' as int + v
    ensures 26 <= v < 52 ==> Symbol(v) == 'a' as int + (v - 26)
    ensures 52 <= v < 62 ==> Symbol(v) == '0' as int + (v - 52)
    ensures v == 62 ==> Symbol(v) == '+' as int
    ensures v == 63 ==> Symbol(v) == '/' as int
  {
  }

  /** The test vectors of section 10 of RFC 4648. */
  lemma TestVectors()
    ensures Encode(Ascii("")) == Ascii("") && Encode(Ascii("f")) == Ascii("Zg==")
    ensures Encode(Ascii("fo")) == Ascii("Zm8=") && Encode(Ascii("foo")) == Ascii("Zm9v")
  {
    assert Ascii("f") == [102] && Ascii("fo") == [102, 111] && Ascii("foo") == [102, 111, 111];
    assert Ascii("Zg==") == [90, 103, 61, 61] && Ascii("Zm8=") == [90, 109, 56, 61]
      && Ascii("Zm9v") == [90, 109, 57, 118];
    assert [102, 111, 111][3..] == [];
  }

  // ----- parts of a multipart request -----

  predicate IsWhitespace(b: byte) { b in {0x20, 0x09, 0x0A, 0x0C, 0x0D} }

  function Strip(s: seq<byte>): (r: seq<byte>)
    ensures forall i :: 0 <= i < |r| ==> !IsWhitespace(r[i])
  {
    if s == [] then [] else (if IsWhitespace(s[0]) then [] else [s[0]]) + Strip(s[1..])
  }

  /** Space, tab, line feed, form feed and carriage return are taken out, and nothing else. */
  lemma StripOne(b: byte)
    ensures Strip([b]) == if b == 32 || b == 9 || b == 10 || b == 12 || b == 13 then [] else [b]
  {
    assert [b][1..] == [];
  }

  lemma {:induction false} StripNothing(s: seq<byte>)
    requires forall i :: 0 <= i < |s| ==> !IsWhitespace(s[i])
    ensures Strip(s) == s
  {
    if s != [] { StripNothing(s[1..]); }
  }

  lemma {:induction false} StripAppend(a: seq<byte>, b: seq<byte>)
    ensures Strip(a + b) == Strip(a) + Strip(b)
  {
    if a == [] {
      assert a + b == b;
    } else {
      assert (a + b)[1..] == a[1..] + b;
      StripAppend(a[1..], b);
    }
  }

  /** `decode_part_data` */
  function DecodePart(data: seq<byte>): Option<seq<byte>> {
    if exists i :: 0 <= i < |data| && IsWhitespace(data[i]) then Decode(Strip(data)) else Decode(data)
  }

  /** A part decodes to these bytes exactly when, whitespace aside, it is their encoding. */
  lemma DecodesExactly(data: seq<byte>, bytes: seq<byte>)
    ensures DecodePart(data) == Some(bytes) <==> Strip(data) == Encode(bytes)
  {
    hide Decode, Encode;
    if !exists i :: 0 <= i < |data| && IsWhitespace(data[i]) { StripNothing(data); }
    assert DecodePart(data) == Decode(Strip(data));
    DecodeEncode(bytes);
    if Decode(Strip(data)) == Some(bytes) { EncodeDecode(Strip(data)); }
  }

  /** The lines of a wrapped encoding, each ended by a line feed (section 6.8 of RFC 2045). */
  function Wrapped(s: seq<byte>, width: nat): seq<byte>
    requires width > 0
  {
    if |s| <= width then s else s[..width] + [0x0A] + Wrapped(s[width..], width)
  }

  lemma StripLine(line: seq<byte>, rest: seq<byte>)
    ensures Strip(line + [0x0A] + rest) == Strip(line) + Strip(rest)
  {
    hide Strip;
    StripAppend(line + [0x0A], rest);
    StripAppend(line, [0x0A]);
    StripLineFeed();
  }

  lemma StripLineFeed()
    ensures Strip([0x0A]) == []
  {
  }

  lemma {:induction false} StripWrapped(s: seq<byte>, width: nat)
    requires width > 0
    ensures Strip(Wrapped(s, width)) == Strip(s)
  {
    hide Strip;
    if |s| > width {
      var line, rest := s[..width], s[width..];
      StripWrapped(rest, width);
      StripLine(line, Wrapped(rest, width));
      StripAppend(line, rest);
      assert s == line + rest;
    }
  }

  lemma {:induction false} EncodeHasNoWhitespace(b: seq<byte>)
    ensures Strip(Encode(b)) == Encode(b)
  {
    hide V0, V1, V2, V3, Symbol;
    if |b| > 2 {
      EncodeHasNoWhitespace(b[3..]);
      assert forall i :: 0 <= i < |Encode(b[3..])| ==> !IsWhitespace(Encode(b[3..])[i]);
    }
    assert forall i :: 0 <= i < |Encode(b)| ==> !IsWhitespace(Encode(b)[i]);
    StripNothing(Encode(b));
  }

  /** Base64 as PostgreSQL wraps it, or wrapped at any other width, decodes to the bytes. */
  lemma WrappedRoundTrip(bytes: seq<byte>, width: nat)
    requires width > 0
    ensures DecodePart(Wrapped(Encode(bytes), width)) == Some(bytes)
  {
    EncodeHasNoWhitespace(bytes);
    StripWrapped(Encode(bytes), width);
    DecodesExactly(Wrapped(Encode(bytes), width), bytes);
  }
}
