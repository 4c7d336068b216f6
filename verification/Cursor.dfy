/** The opaque keyset cursor (src/monitoring.rs:32-88). */
module Cursor {
  import opened Prelude
  import opened Bytes

  const VERSION: seq<byte> := [0x76, 0x31]   // "v1"
  const BAR: byte := 0x7C
  const MAX_CURSOR_LEN: nat := 512

  function Raw(ts: seq<byte>, id: seq<byte>): seq<byte> { VERSION + [BAR] + ts + [BAR] + id }

  /** `encode_cursor` */
  function Encode(ts: seq<byte>, id: seq<byte>): (c: seq<byte>)
    ensures |c| == 2 * (4 + |ts| + |id|)
  {
    Hex(Raw(ts, id))
  }

  /** The part of `decode_cursor` after the bytes are known. */
  function ParseRaw(raw: seq<byte>): Option<(seq<byte>, seq<byte>)> {
    if !IsUtf8(raw) then None
    else
      match SplitOnceAt(raw, BAR)
      case None => None
      case Some((version, rest)) =>
        if version != VERSION then None
        else
          match SplitOnceAt(rest, BAR)
          case None => None
          case Some((ts, id)) => if ts == [] || id == [] then None else Some((ts, id))
  }

  function Decoded(cursor: seq<byte>): Option<(seq<byte>, seq<byte>)> {
    if cursor == [] || |cursor| > MAX_CURSOR_LEN || |cursor| % 2 != 0 then None
    else
      match Unhex(cursor, |cursor| / 2)
      case None => None
      case Some(raw) => ParseRaw(raw)
  }

  /** `decode_cursor` */
  method Decode(cursor: seq<byte>) returns (r: Option<(seq<byte>, seq<byte>)>)
    ensures r == Decoded(cursor)
  {
    hide ParseRaw, HexValue, Join;
    if cursor == [] || |cursor| > MAX_CURSOR_LEN || |cursor| % 2 != 0 {
      return None;
    }
    var decoded: seq<byte> := [];
    var i := 0;
    while i < |cursor|
      invariant 0 <= i <= |cursor| && i % 2 == 0 && Unhex(cursor, i / 2) == Some(decoded)
    {
      var hi, lo := HexValue(cursor[i]), HexValue(cursor[i + 1]);
      if hi.None? || lo.None? {
        assert Unhex(cursor, i / 2 + 1).None?;
        UnhexStops(cursor, i / 2 + 1, |cursor| / 2);
        return None;
      }
      decoded := decoded + [Join(hi.value, lo.value)];
      i := i + 2;
    }
    r := ParseRaw(decoded);
  }

  /** A token is the hexadecimal form of the version, the timestamp and the identifier. */
  lemma TokenIs(ts: seq<byte>, id: seq<byte>)
    ensures Encode(ts, id) == Ascii("76317c") + Hex(ts) + Ascii("7c") + Hex(id)
  {
    assert Ascii("76317c") == [0x37, 0x36, 0x33, 0x31, 0x37, 0x63] && Ascii("7c") == [0x37, 0x63];
    assert Hex([0x76, 0x31, 0x7C]) == [0x37, 0x36, 0x33, 0x31, 0x37, 0x63];
    assert Hex([0x7C]) == [0x37, 0x63];
    assert VERSION + [BAR] == [0x76, 0x31, 0x7C];
    HexConcat(VERSION + [BAR], ts);
    HexConcat(VERSION + [BAR] + ts, [BAR]);
    HexConcat(VERSION + [BAR] + ts + [BAR], id);
  }

  lemma HexConcat(a: seq<byte>, b: seq<byte>)
    ensures Hex(a + b) == Hex(a) + Hex(b)
  {
    hide HexChar, HighNibble, LowNibble;
  }

  lemma RawIsUtf8(ts: seq<byte>, id: seq<byte>)
    requires IsUtf8(ts) && IsUtf8(id)
    ensures IsUtf8(Raw(ts, id))
  {
    hide IsUtf8;
    AsciiIsUtf8(VERSION + [BAR]);
    AsciiIsUtf8([BAR]);
    Utf8Concat([BAR], id);
    Utf8Concat(ts, [BAR] + id);
    Utf8Concat(VERSION + [BAR], ts + ([BAR] + id));
    assert Raw(ts, id) == VERSION + [BAR] + (ts + ([BAR] + id));
  }

  /** A token decodes to what it was made from exactly when both parts are nonempty, the
      timestamp has no separator and the token fits the length cap. */
  lemma DecodeEncode(ts: seq<byte>, id: seq<byte>)
    requires IsUtf8(ts) && IsUtf8(id)
    ensures Decoded(Encode(ts, id)) == Some((ts, id)) <==>
            ts != [] && id != [] && ('|' as int) !in ts && |Encode(ts, id)| <= 512
  {
    hide Unhex, Hex, IsUtf8, SplitOnceAt;
    var raw, rest := Raw(ts, id), ts + [BAR] + id;
    UnhexHex(raw, |raw|);
    assert raw[..|raw|] == raw;
    RawIsUtf8(ts, id);
    assert raw == VERSION + [BAR] + rest;
    SplitOnceAtFirst(VERSION, BAR, rest);
    if BAR !in ts { SplitOnceAtFirst(ts, BAR, id); }
  }

  /** Every accepted token re-encodes to its own lower-case form; so two tokens that decode
      alike differ at most in case. */
  lemma EncodeDecode(cursor: seq<byte>)
    requires Decoded(cursor).Some?
    ensures var (ts, id) := Decoded(cursor).value; Encode(ts, id) == Lower(cursor)
  {
    hide Unhex, Hex, IsUtf8, SplitOnceAt, Lower;
    var raw := Unhex(cursor, |cursor| / 2).value;
    HexUnhex(cursor, |cursor| / 2);
    assert cursor[..2 * (|cursor| / 2)] == cursor;
    var (ts, id) := Decoded(cursor).value;
    var rest := SplitOnceAt(raw, BAR).value.1;
    assert raw == VERSION + [BAR] + rest && rest == ts + [BAR] + id;
    assert raw == Raw(ts, id);
  }

  lemma DigitInAnyCase(b: byte, d: nat)
    requires d < 16 && LowerByte(b) == HexChar(d)
    ensures HexValue(b) == Some(d)
  {
  }

  lemma {:induction false} UnhexAnyCase(c: seq<byte>, s: seq<byte>, k: nat)
    requires Lower(c) == Hex(s) && k <= |s| && |c| == 2 * |s|
    ensures Unhex(c, k) == Some(s[..k])
  {
    hide Hex, HexChar, HexValue, HighNibble, LowNibble, Join, LowerByte;
    if k > 0 {
      UnhexAnyCase(c, s, k - 1);
      HexAt(s, k);
      PairInAnyCase(c, s, k);
      NibblesJoin(s[k - 1]);
    }
  }

  lemma PairInAnyCase(c: seq<byte>, s: seq<byte>, k: nat)
    requires Lower(c) == Hex(s) && 0 < k <= |s| && |c| == 2 * |s|
    ensures HexValue(c[2 * k - 2]) == Some(HighNibble(s[k - 1])) && HexValue(c[2 * k - 1]) == Some(LowNibble(s[k - 1]))
  {
    hide Hex, Lower, HexChar, HexValue, HighNibble, LowNibble, LowerByte;
    HexAt(s, k);
    assert Lower(c)[2 * k - 2] == LowerByte(c[2 * k - 2]) && Lower(c)[2 * k - 1] == LowerByte(c[2 * k - 1]);
    DigitInAnyCase(c[2 * k - 2], HighNibble(s[k - 1]));
    DigitInAnyCase(c[2 * k - 1], LowNibble(s[k - 1]));
  }

  /** Which tokens are accepted, and as what: exactly the encoding, its letters in either case, of
      two nonempty parts the first of which has no separator, up to 512 digits. */
  lemma AcceptedExactly(cursor: seq<byte>, ts: seq<byte>, id: seq<byte>)
    requires IsUtf8(ts) && IsUtf8(id)
    ensures Decoded(cursor) == Some((ts, id)) <==>
              && Lower(cursor) == Encode(ts, id) && |cursor| <= 512
              && ts != [] && id != [] && ('|' as int) !in ts
  {
    hide Unhex, Hex, IsUtf8, SplitOnceAt, Lower;
    var raw, rest := Raw(ts, id), ts + [BAR] + id;
    if Decoded(cursor) == Some((ts, id)) {
      EncodeDecode(cursor);
      DecodeEncodeLength(cursor, ts, id);
    }
    if Lower(cursor) == Encode(ts, id) && |cursor| <= 512 && ts != [] && id != [] && BAR !in ts {
      assert |Lower(cursor)| == |cursor|;
      UnhexAnyCase(cursor, raw, |raw|);
      assert raw[..|raw|] == raw;
      RawIsUtf8(ts, id);
      assert raw == VERSION + [BAR] + rest;
      SplitOnceAtFirst(VERSION, BAR, rest);
      SplitOnceAtFirst(ts, BAR, id);
    }
  }

  lemma DecodeEncodeLength(cursor: seq<byte>, ts: seq<byte>, id: seq<byte>)
    requires Decoded(cursor) == Some((ts, id))
    ensures |cursor| <= 512 && ts != [] && id != [] && BAR !in ts
  {
    hide Unhex, IsUtf8;
  }
}
