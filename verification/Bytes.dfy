/** Bytes, and which byte sequences are the UTF-8 text a `String` may hold. */
module Bytes {
  import opened Prelude

  type byte = b: int | 0 <= b < 256

  predicate IsContinuation(b: byte) { 0x80 <= b <= 0xBF }

  predicate Continues(s: seq<byte>, from: nat, to: nat) {
    to <= |s| && forall i :: from <= i < to ==> IsContinuation(s[i])
  }

  /** Length of the well-formed character at the start of `s`, or 0 (section 4 of RFC 3629). */
  function CharLen(s: seq<byte>): (n: nat)
    ensures n <= |s| && n <= 4
    ensures n > 0 ==> !IsContinuation(s[0]) && Continues(s, 1, n)
  {
    if s == [] then 0
    else if s[0] < 0x80 then 1
    else if 0xC2 <= s[0] <= 0xDF && Continues(s, 1, 2) then 2
    else if 0xE0 <= s[0] <= 0xEF && Continues(s, 1, 3) &&
            (s[0] == 0xE0 ==> s[1] >= 0xA0) && (s[0] == 0xED ==> s[1] < 0xA0) then 3
    else if 0xF0 <= s[0] <= 0xF4 && Continues(s, 1, 4) &&
            (s[0] == 0xF0 ==> s[1] >= 0x90) && (s[0] == 0xF4 ==> s[1] < 0x90) then 4
    else 0
  }

  /** `from_utf8` accepts `s`. */
  predicate IsUtf8(s: seq<byte>)
    decreases |s|
  {
    s == [] || (CharLen(s) > 0 && IsUtf8(s[CharLen(s)..]))
  }

  /** A character's length is settled by its own bytes. */
  lemma CharLenOfPrefix(s: seq<byte>, t: seq<byte>)
    requires CharLen(s) > 0 && s[..CharLen(s)] <= t
    ensures CharLen(t) == CharLen(s)
  {
    assert forall i :: 0 <= i < CharLen(s) ==> t[i] == s[..CharLen(s)][i] == s[i];
  }

  lemma {:induction false} Utf8Concat(a: seq<byte>, b: seq<byte>)
    requires IsUtf8(a)
    ensures IsUtf8(a + b) <==> IsUtf8(b)
    decreases |a|
  {
    if a == [] {
      assert a + b == b;
    } else {
      var n := CharLen(a);
      assert (a + b)[..n] == a[..n];
      CharLenOfPrefix(a, a + b);
      hide CharLen;
      assert (a + b)[n..] == a[n..] + b;
      Utf8Concat(a[n..], b);
    }
  }

  lemma {:induction false} AsciiIsUtf8(a: seq<byte>)
    requires forall i :: 0 <= i < |a| ==> a[i] < 0x80
    ensures IsUtf8(a)
  {
    if a != [] { AsciiIsUtf8(a[1..]); }
  }

  // ----- what a character is (section 3 of RFC 3629) -----

  /** A code point that is not a surrogate. */
  predicate IsScalar(c: int) { 0 <= c < 0xD800 || 0xE000 <= c < 0x11_0000 }

  /** Its bytes. */
  function EncodeScalar(c: int): (s: seq<byte>)
    requires IsScalar(c)
  {
    if c < 0x80 then [c]
    else if c < 0x800 then [0xC0 + c / 64, 0x80 + c % 64]
    else if c < 0x1_0000 then [0xE0 + c / 4096, 0x80 + c / 64 % 64, 0x80 + c % 64]
    else [0xF0 + c / 262144, 0x80 + c / 4096 % 64, 0x80 + c / 64 % 64, 0x80 + c % 64]
  }

  /** Every scalar value, in front of anything, is one character. */
  lemma ScalarIsChar(c: int, rest: seq<byte>)
    requires IsScalar(c)
    ensures CharLen(EncodeScalar(c) + rest) == |EncodeScalar(c)|
  {
    var s := EncodeScalar(c) + rest;
    var n := |EncodeScalar(c)|;
    assert forall i :: 0 <= i < n ==> s[i] == EncodeScalar(c)[i];
    assert forall i :: 1 <= i < n ==> IsContinuation(s[i]);
  }

  lemma TwoByteScalar(a: int, b: int)
    requires 0xC2 <= a <= 0xDF && 0x80 <= b <= 0xBF
    ensures var c := (a - 0xC0) * 64 + (b - 0x80); IsScalar(c) && EncodeScalar(c) == [a, b]
  {
  }

  lemma ThreeByteScalar(a: int, b: int, d: int)
    requires 0xE0 <= a <= 0xEF && 0x80 <= b <= 0xBF && 0x80 <= d <= 0xBF
    requires (a == 0xE0 ==> b >= 0xA0) && (a == 0xED ==> b < 0xA0)
    ensures var c := (a - 0xE0) * 4096 + (b - 0x80) * 64 + (d - 0x80); IsScalar(c) && EncodeScalar(c) == [a, b, d]
  {
    var c := (a - 0xE0) * 4096 + (b - 0x80) * 64 + (d - 0x80);
    assert c % 64 == d - 0x80 && c / 64 == (a - 0xE0) * 64 + (b - 0x80);
    assert c / 4096 == a - 0xE0;
  }

  lemma FourByteScalar(a: int, b: int, d: int, e: int)
    requires 0xF0 <= a <= 0xF4 && 0x80 <= b <= 0xBF && 0x80 <= d <= 0xBF && 0x80 <= e <= 0xBF
    requires (a == 0xF0 ==> b >= 0x90) && (a == 0xF4 ==> b < 0x90)
    ensures var c := (a - 0xF0) * 262144 + (b - 0x80) * 4096 + (d - 0x80) * 64 + (e - 0x80);
            IsScalar(c) && EncodeScalar(c) == [a, b, d, e]
  {
    var c := (a - 0xF0) * 262144 + (b - 0x80) * 4096 + (d - 0x80) * 64 + (e - 0x80);
    assert c % 64 == e - 0x80 && c / 64 == (a - 0xF0) * 4096 + (b - 0x80) * 64 + (d - 0x80);
    assert c / 4096 == (a - 0xF0) * 64 + (b - 0x80) && c / 262144 == a - 0xF0;
  }

  /** And every character is a scalar value. */
  lemma CharIsScalar(s: seq<byte>) returns (c: int)
    requires CharLen(s) > 0
    ensures IsScalar(c) && s[..CharLen(s)] == EncodeScalar(c)
  {
    var n := CharLen(s);
    assert forall i :: 1 <= i < n ==> IsContinuation(s[i]);
    hide EncodeScalar;
    var a: int := s[0];
    if n == 1 {
      c := a;
      OneByteScalar(a);
      assert s[..1] == [s[0]];
    } else {
      var b: int := s[1];
      if n == 2 {
        c := (a - 0xC0) * 64 + (b - 0x80);
        TwoByteScalar(a, b);
        assert s[..2] == [s[0], s[1]];
      } else {
        var d: int := s[2];
        if n == 3 {
          c := (a - 0xE0) * 4096 + (b - 0x80) * 64 + (d - 0x80);
          ThreeByteScalar(a, b, d);
          assert s[..3] == [s[0], s[1], s[2]];
        } else {
          var e: int := s[3];
          c := (a - 0xF0) * 262144 + (b - 0x80) * 4096 + (d - 0x80) * 64 + (e - 0x80);
          FourByteScalar(a, b, d, e);
          assert s[..4] == [s[0], s[1], s[2], s[3]];
        }
      }
    }
  }

  lemma OneByteScalar(a: int)
    requires 0 <= a < 0x80
    ensures IsScalar(a) && EncodeScalar(a) == [a]
  {
  }

  /** `str::is_char_boundary` */
  predicate IsBoundary(s: seq<byte>, i: nat) {
    i == 0 || i == |s| || (i < |s| && !IsContinuation(s[i]))
  }

  lemma FirstCharIsUtf8(s: seq<byte>)
    requires CharLen(s) > 0
    ensures IsUtf8(s[..CharLen(s)])
  {
    var first := s[..CharLen(s)];
    CharLenOfPrefix(s, first);
    assert first[CharLen(s)..] == [];
  }

  lemma {:induction false} BoundarySplits(s: seq<byte>, i: nat)
    requires IsUtf8(s) && i <= |s| && IsBoundary(s, i)
    ensures IsUtf8(s[..i]) && IsUtf8(s[i..])
    decreases |s|
  {
    hide CharLen;
    if i == 0 {
      assert s[0..] == s && s[..0] == [];
    } else {
      var n := CharLen(s);
      assert n <= i;
      var rest := s[n..];
      FirstCharIsUtf8(s);
      assert i < |s| ==> rest[i - n] == s[i];
      BoundarySplits(rest, i - n);
      hide IsUtf8;
      assert rest[i - n..] == s[i..];
      assert s[..i] == s[..n] + rest[..i - n];
      Utf8Concat(s[..n], rest[..i - n]);
    }
  }

  /** A character boundary is never more than three bytes back. */
  lemma {:induction false} BoundaryNear(s: seq<byte>, i: nat) returns (k: nat)
    requires IsUtf8(s) && i < |s|
    ensures k <= 3 && k <= i && !IsContinuation(s[i - k])
    decreases |s|
  {
    hide CharLen;
    var n := CharLen(s);
    if i < n {
      k := i;
    } else {
      k := BoundaryNear(s[n..], i - n);
    }
  }

  /** The bytes of an ASCII literal. */
  function Ascii(s: string): (r: seq<byte>)
    requires forall i :: 0 <= i < |s| ==> s[i] as int < 0x80
    ensures |r| == |s| && forall i :: 0 <= i < |r| ==> r[i] == s[i] as int
  {
    seq(|s|, i requires 0 <= i < |s| => s[i] as int)
  }

  // ----- hexadecimal -----

  function HexChar(d: nat): (b: byte)
    requires d < 16
    ensures b < 0x80
  {
    if d < 10 then 0x30 + d else 0x61 + d - 10
  }

  /** `char::to_digit(16)` */
  function HexValue(b: byte): (d: Option<nat>)
    ensures d.Some? ==> d.value < 16
  {
    if 0x30 <= b <= 0x39 then Some(b - 0x30)
    else if 0x61 <= b <= 0x66 then Some(b - 0x61 + 10)
    else if 0x41 <= b <= 0x46 then Some(b - 0x41 + 10)
    else None
  }

  function LowerByte(b: byte): byte {
    if 0x41 <= b <= 0x5A then b + 0x20 else b
  }

  function Lower(s: seq<byte>): (r: seq<byte>)
    ensures |r| == |s| && forall i :: 0 <= i < |s| ==> r[i] == LowerByte(s[i])
    ensures forall i :: 0 <= i < |s| ==> r[i] == if 65 <= s[i] <= 90 then s[i] + 32 else s[i]
  {
    seq(|s|, i requires 0 <= i < |s| => LowerByte(s[i]))
  }

  function HighNibble(b: byte): (d: nat) ensures d < 16 { b / 16 }

  function LowNibble(b: byte): (d: nat) ensures d < 16 { b % 16 }

  function Join(hi: nat, lo: nat): (b: byte)
    requires hi < 16 && lo < 16
    ensures HighNibble(b) == hi && LowNibble(b) == lo
  {
    hi * 16 + lo
  }

  lemma NibblesJoin(b: byte)
    ensures Join(HighNibble(b), LowNibble(b)) == b
  {
  }

  lemma HexCharValue(d: nat)
    requires d < 16
    ensures HexValue(HexChar(d)) == Some(d)
  {
  }

  lemma HexValueChar(b: byte)
    requires HexValue(b).Some?
    ensures HexChar(HexValue(b).value) == LowerByte(b)
  {
  }

  /** Two lower-case hexadecimal characters per byte. */
  function Hex(s: seq<byte>): (r: seq<byte>)
    ensures |r| == 2 * |s|
  {
    seq(2 * |s|, i requires 0 <= i < 2 * |s| =>
      HexChar(if i % 2 == 0 then HighNibble(s[i / 2]) else LowNibble(s[i / 2])))
  }

  /** The first `k` bytes written in `c`, if all their characters are hexadecimal. */
  function Unhex(c: seq<byte>, k: nat): (r: Option<seq<byte>>)
    requires 2 * k <= |c|
    ensures r.Some? ==> |r.value| == k
  {
    if k == 0 then Some([])
    else
      match (Unhex(c, k - 1), HexValue(c[2 * k - 2]), HexValue(c[2 * k - 1]))
      case (Some(front), Some(hi), Some(lo)) => Some(front + [Join(hi, lo)])
      case _ => None
  }

  lemma HexAt(s: seq<byte>, k: nat)
    requires 0 < k <= |s|
    ensures Hex(s)[2 * k - 2] == HexChar(HighNibble(s[k - 1])) && Hex(s)[2 * k - 1] == HexChar(LowNibble(s[k - 1]))
    ensures s[..k] == s[..k - 1] + [s[k - 1]]
  {
    hide HexChar, HighNibble, LowNibble;
  }

  lemma {:induction false} UnhexHex(s: seq<byte>, k: nat)
    requires k <= |s|
    ensures Unhex(Hex(s), k) == Some(s[..k])
  {
    hide HexChar, HexValue, HighNibble, LowNibble, Join, Hex;
    if k > 0 {
      UnhexHex(s, k - 1);
      var b := s[k - 1];
      HexAt(s, k);
      HexCharValue(HighNibble(b));
      HexCharValue(LowNibble(b));
      NibblesJoin(b);
    }
  }

  lemma UnhexStep(c: seq<byte>, k: nat)
    requires 0 < k && 2 * k <= |c| && Unhex(c, k).Some?
    ensures Unhex(c, k - 1).Some? && HexValue(c[2 * k - 2]).Some? && HexValue(c[2 * k - 1]).Some?
    ensures Unhex(c, k).value == Unhex(c, k - 1).value +
            [Join(HexValue(c[2 * k - 2]).value, HexValue(c[2 * k - 1]).value)]
  {
    hide HexValue, Join;
  }

  lemma TakePair(c: seq<byte>, k: nat)
    requires 0 < k && 2 * k <= |c|
    ensures c[..2 * k] == c[..2 * (k - 1)] + [c[2 * k - 2], c[2 * k - 1]]
  {
  }

  lemma HexUnhexNone(c: seq<byte>)
    ensures Hex([]) == Lower(c[..0])
  {
  }

  lemma {:induction false} HexUnhex(c: seq<byte>, k: nat)
    requires 2 * k <= |c| && Unhex(c, k).Some?
    ensures Hex(Unhex(c, k).value) == Lower(c[..2 * k])
  {
    hide Hex, Lower;
    if k == 0 {
      HexUnhexNone(c);
    } else {
      UnhexStep(c, k);
      hide Unhex;
      var front, a, b := Unhex(c, k - 1).value, c[2 * k - 2], c[2 * k - 1];
      HexUnhex(c, k - 1);
      HexValueChar(a);
      HexValueChar(b);
      hide HexChar, HexValue, HighNibble, LowNibble, Join, LowerByte;
      TakePair(c, k);
      LowerAppend(c[..2 * (k - 1)], a, b);
      HexAppend(front, Join(HexValue(a).value, HexValue(b).value));
    }
  }

  lemma LowerAppend(s: seq<byte>, a: byte, b: byte)
    ensures Lower(s + [a, b]) == Lower(s) + [LowerByte(a), LowerByte(b)]
  {
    hide LowerByte;
  }

  lemma HexAppend(front: seq<byte>, b: byte)
    ensures Hex(front + [b]) == Hex(front) + [HexChar(HighNibble(b)), HexChar(LowNibble(b))]
  {
    hide HexChar, HighNibble, LowNibble;
  }

  lemma {:induction false} UnhexStops(c: seq<byte>, k: nat, n: nat)
    requires k <= n && 2 * n <= |c| && Unhex(c, k).None?
    ensures Unhex(c, n).None?
    decreases n
  {
    if k < n { UnhexStops(c, k, n - 1); }
  }

  // ----- searching -----

  /** Index of the first `b`, or the length of `s`. */
  function IndexOf(s: seq<byte>, b: byte): (i: nat)
    ensures i <= |s| && (i < |s| ==> s[i] == b) && forall j :: 0 <= j < i ==> s[j] != b
  {
    if s == [] || s[0] == b then 0 else 1 + IndexOf(s[1..], b)
  }

  /** `split_once` at a single byte. */
  function SplitOnceAt(s: seq<byte>, b: byte): (r: Option<(seq<byte>, seq<byte>)>)
    ensures r.None? <==> b !in s
    ensures r.Some? ==> s == r.value.0 + [b] + r.value.1 && b !in r.value.0
  {
    var i := IndexOf(s, b);
    if i == |s| then None else Some((s[..i], s[i + 1..]))
  }

  lemma SplitOnceAtFirst(a: seq<byte>, b: byte, rest: seq<byte>)
    requires b !in a
    ensures SplitOnceAt(a + [b] + rest, b) == Some((a, rest))
  {
    var s := a + [b] + rest;
    assert s[|a|] == b;
    var i := IndexOf(s, b);
    assert forall j :: 0 <= j < |a| ==> s[j] == a[j];
    assert i == |a|;
    assert s[..i] == a && s[i + 1..] == rest;
  }
}
