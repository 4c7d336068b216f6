/** Bounded reading of HTTP bodies (src/activities/http_response.rs:120-183,
    src/activities/http_response.rs:411-477) and the size check of multipart requests
    (src/activities/execute_multipart.rs:55-102). */
module HttpBody {
  import opened Prelude
  import opened Bytes
  import Base64
  import Text

  const U64_MAX: nat := 0xFFFF_FFFF_FFFF_FFFF

  type u64 = n: nat | n <= U64_MAX

  // ----- what a body becomes -----

  datatype ResponseBody = Plain(body: seq<byte>) | Encoded(body: seq<byte>)

  /** `text_from_bytes`: NUL bytes and invalid UTF-8 cannot be text. */
  function TextFromBytes(bytes: seq<byte>): Option<seq<byte>> {
    if 0 in bytes || !IsUtf8(bytes) then None else Some(bytes)
  }

  /** The inline form of a body that no header declares textual. */
  function Inlined(bytes: seq<byte>): ResponseBody {
    match TextFromBytes(bytes)
    case Some(text) => Plain(text)
    case None => Encoded(Base64.Encode(bytes))
  }

  /** Such a body is lossless. Text is the bytes themselves and can be stored; base64, however
      it is wrapped, decodes back through the multipart decoder. */
  lemma InlinedIsLossless(bytes: seq<byte>, wrapped: seq<byte>)
    ensures Inlined(bytes).Plain? <==> IsUtf8(bytes) && 0 !in bytes
    ensures Inlined(bytes).Plain? ==> Inlined(bytes).body == bytes
    ensures Inlined(bytes).Encoded? && Base64.Strip(wrapped) == Inlined(bytes).body ==>
            Base64.DecodePart(wrapped) == Some(bytes)
  {
    Base64.DecodesExactly(wrapped, bytes);
  }

  /** Two bodies with the same inline form are the same body. */
  lemma InlinedIsInjective(a: seq<byte>, b: seq<byte>)
    requires Inlined(a) == Inlined(b)
    ensures a == b
  {
    Base64.DecodeEncode(a);
    Base64.DecodeEncode(b);
  }

  // ----- reading -----

  datatype Mode = Inline | Metadata | Sink | Discard

  datatype Content = Content(inline: Option<ResponseBody>, bytes: u64, sha256: Option<seq<byte>>,
    sinkBody: Option<seq<byte>>)

  datatype Error = Exceeded | ReadFailed

  /** Decisions of libraries: whether the content type declares text, the decoding by the
      declared character set, and the digest. */
  datatype Lib = Lib(textual: bool, decode: seq<byte> -> seq<byte>, digest: seq<byte> -> seq<byte>)

  function Concat(chunks: seq<seq<byte>>): seq<byte> {
    if chunks == [] then [] else Concat(chunks[..|chunks| - 1]) + chunks[|chunks| - 1]
  }

  function LimitOf(limit: Option<u64>): u64 { if limit.Some? then limit.value else U64_MAX }

  /** What is kept of a complete body; chunks play no role. */
  function ContentOf(lib: Lib, mode: Mode, body: seq<byte>): Content
    requires |body| <= U64_MAX
  {
    Content(
      if !mode.Inline? then None
      else if lib.textual then Some(Plain(lib.decode(body)))
      else Some(Inlined(body)),
      |body|,
      if mode.Metadata? || mode.Sink? then Some(lib.digest(body)) else None,
      if mode.Sink? then Some(body) else None)
  }

  lemma {:induction false} ConcatGrows(chunks: seq<seq<byte>>, k: nat)
    requires k <= |chunks|
    ensures |Concat(chunks[..k])| <= |Concat(chunks)|
  {
    if k < |chunks| {
      var init := chunks[..|chunks| - 1];
      ConcatGrows(init, k);
      assert init[..k] == chunks[..k];
    } else {
      assert chunks[..k] == chunks;
    }
  }

  /** `read_body` over a stream that yields the chunks and then ends, or breaks. An honest
      `contentLength` is that of the body. */
  method ReadBody(lib: Lib, mode: Mode, limit: Option<u64>, contentLength: Option<u64>, chunks: seq<seq<byte>>,
                  breaks: bool)
    returns (r: Result<Content, Error>)
    ensures r.Ok? <==>
            && !breaks && |Concat(chunks)| <= 18446744073709551615
            && (limit.Some? ==> |Concat(chunks)| <= limit.value)
            && (limit.Some? && contentLength.Some? ==> contentLength.value <= limit.value)
    ensures r.Ok? ==> r.value == ContentOf(lib, mode, Concat(chunks))
    ensures r.Err? ==>
              (r.error.ReadFailed? <==>
                 && breaks && |Concat(chunks)| <= 18446744073709551615
                 && (limit.Some? ==> |Concat(chunks)| <= limit.value)
                 && (limit.Some? && contentLength.Some? ==> contentLength.value <= limit.value))
  {
    hide IsUtf8, Base64.Encode;
    var max := LimitOf(limit);
    if contentLength.Some? && contentLength.value > max {
      return Err(Exceeded);
    }
    var bytes: seq<byte> := [];
    var hashed: seq<byte> := [];
    var total: u64 := 0;
    for i := 0 to |chunks|
      invariant total == |Concat(chunks[..i])| <= max
      invariant hashed == Concat(chunks[..i])
      invariant bytes == if mode.Inline? || mode.Sink? then Concat(chunks[..i]) else []
    {
      var room: u64 := max - total;       // never below zero
      assert chunks[..i + 1][..i] == chunks[..i];
      if |chunks[i]| > room {
        ConcatGrows(chunks, i + 1);
        return Err(Exceeded);
      }
      total := total + |chunks[i]|;       // never above 64 bits
      if mode.Inline? || mode.Sink? {
        bytes := bytes + chunks[i];
      }
      hashed := hashed + chunks[i];
    }
    assert chunks[..|chunks|] == chunks;
    if breaks {
      return Err(ReadFailed);
    }
    var sinkBody := None;
    if mode.Sink? {
      sinkBody, bytes := Some(bytes), [];
    }
    var inline := None;
    if mode.Inline? {
      inline := Some(if lib.textual then Plain(lib.decode(bytes)) else Inlined(bytes));
    }
    var sha256 := None;
    if mode.Metadata? || mode.Sink? {
      sha256 := Some(lib.digest(hashed));
    }
    r := Ok(Content(inline, total, sha256, sinkBody));
  }

  // ----- the excerpt in an error message -----

  const PREVIEW: nat := 512

  /** The unit of the length: characters of the encoding, or bytes. */
  function Unit(r: ResponseBody): (unit: seq<byte>)
    ensures forall i :: 0 <= i < |unit| ==> unit[i] < 0x80
  {
    if r.Encoded? then Ascii(" base64 characters total]") else Ascii(" bytes total]")
  }

  /** The number in decimal. */
  function Number(n: nat): (r: seq<byte>)
    ensures |r| == |Text.Digits(n)| && forall i :: 0 <= i < |r| ==> r[i] == Text.Digits(n)[i] as int
    ensures forall i :: 0 <= i < |r| ==> r[i] < 0x80
  {
    var digits := Text.Digits(n);
    seq(|digits|, i requires 0 <= i < |digits| => digits[i] as int)
  }

  function Note(r: ResponseBody): (note: seq<byte>)
    ensures forall i :: 0 <= i < |note| ==> note[i] < 0x80
  {
    Ascii("... [truncated, ") + Number(|r.body|) + Unit(r)
  }

  lemma NoteIs(r: ResponseBody)
    ensures Note(r) == Ascii("... [truncated, ") + Number(|r.body|) +
                       (if r.Encoded? then Ascii(" base64 characters total]") else Ascii(" bytes total]"))
  {
    hide Ascii, Number;
  }

  /** `error_preview`: an excerpt that never cuts a character, and the length of what was cut.
      `end` is where it was cut. */
  method ErrorPreview(r: ResponseBody) returns (text: seq<byte>, ghost end: nat)
    requires IsUtf8(r.body)
    ensures IsUtf8(text)
    ensures |r.body| <= 512 ==> text == r.body
    ensures |r.body| > 512 ==>
              && 509 <= end <= 512 && (end == 0 || !IsContinuation(r.body[end]))
              && (forall j: nat :: end < j <= 512 ==> IsContinuation(r.body[j]))
              && text == r.body[..end] + Ascii("... [truncated, ") + Number(|r.body|) +
                         (if r.Encoded? then Ascii(" base64 characters total]") else Ascii(" bytes total]"))
  {
    hide IsUtf8, CharLen, Note, Number, Ascii;
    end := 0;
    if |r.body| <= PREVIEW {
      return r.body, end;
    }
    var cut := Cut(r.body);
    text, end := WithNote(r, cut), cut;
    NoteIs(r);
  }

  /** The last character boundary within the excerpt's length. */
  method Cut(s: seq<byte>) returns (cut: nat)
    requires IsUtf8(s) && |s| > PREVIEW
    ensures PREVIEW - 3 <= cut <= PREVIEW && IsBoundary(s, cut)
    ensures forall j: nat :: cut < j <= PREVIEW ==> IsContinuation(s[j])
  {
    hide IsUtf8, CharLen;
    ghost var back := BoundaryNear(s, PREVIEW);
    cut := PREVIEW;
    while cut > 0 && !IsBoundary(s, cut)
      invariant PREVIEW - back <= cut <= PREVIEW
      invariant forall j: nat :: cut < j <= PREVIEW ==> IsContinuation(s[j])
    {
      cut := cut - 1;
    }
  }

  /** The excerpt up to `cut`, and the note. */
  function WithNote(r: ResponseBody, cut: nat): (text: seq<byte>)
    requires IsUtf8(r.body) && cut <= |r.body| && IsBoundary(r.body, cut)
    ensures IsUtf8(text) && text == r.body[..cut] + Note(r)
  {
    hide IsUtf8, CharLen, Note;
    BoundarySplits(r.body, cut);
    AsciiIsUtf8(Note(r));
    Utf8Concat(r.body[..cut], Note(r));
    r.body[..cut] + Note(r)
  }

  // ----- the size of a multipart request -----

  datatype BuildError = BadPart | Overflow | TooLarge | UnknownLength

  predicate AllDecode(parts: seq<seq<byte>>) {
    forall i :: 0 <= i < |parts| ==> Base64.DecodePart(parts[i]).Some?
  }

  function Payload(parts: seq<seq<byte>>): nat
    requires AllDecode(parts)
  {
    if parts == [] then 0
    else Payload(parts[..|parts| - 1]) + |Base64.DecodePart(parts[|parts| - 1]).value|
  }

  lemma {:induction false} PayloadGrows(parts: seq<seq<byte>>, k: nat)
    requires AllDecode(parts) && k <= |parts|
    ensures AllDecode(parts[..k]) && Payload(parts[..k]) <= Payload(parts)
  {
    hide Base64.DecodePart;
    if k < |parts| {
      var init := parts[..|parts| - 1];
      PayloadGrows(init, k);
      assert init[..k] == parts[..k];
    } else {
      assert parts[..k] == parts;
    }
  }

  predicate Fits(limit: Option<u64>, n: nat) { n <= LimitOf(limit) }

  /** `build_multipart_request`: `built` is the length of the finished body, if the library
      knows it. The body is refused as soon as the parts read so far are too large. */
  method BuildMultipart(parts: seq<seq<byte>>, limit: Option<u64>, built: Option<u64>)
      returns (r: Result<seq<seq<byte>>, BuildError>)
    ensures r.Ok? <==>
            && AllDecode(parts) && Payload(parts) <= 18446744073709551615
            && (limit.Some? ==> Payload(parts) <= limit.value && built.Some? && built.value <= limit.value)
    ensures r.Ok? ==> |r.value| == |parts| && forall i :: 0 <= i < |parts| ==>
            Base64.DecodePart(parts[i]) == Some(r.value[i])
    ensures r.Err? && r.error.BadPart? ==> !AllDecode(parts)
    ensures r.Err? && r.error.Overflow? ==> AllDecode(parts) ==> Payload(parts) > U64_MAX
  {
    hide Base64.DecodePart;
    var total: u64 := 0;
    var form: seq<seq<byte>> := [];
    for i := 0 to |parts|
      invariant AllDecode(parts[..i]) && total == Payload(parts[..i]) && Fits(limit, total)
      invariant |form| == i && forall k :: 0 <= k < i ==> Base64.DecodePart(parts[k]) == Some(form[k])
    {
      var bytes := Base64.DecodePart(parts[i]);
      if bytes.None? {
        return Err(BadPart);
      }
      assert parts[..i + 1][..i] == parts[..i];
      if AllDecode(parts) { PayloadGrows(parts, i + 1); }
      if total + |bytes.value| > U64_MAX {
        return Err(Overflow);
      }
      total := total + |bytes.value|;
      if limit.Some? && total > limit.value {
        return Err(TooLarge);
      }
      form := form + [bytes.value];
    }
    assert parts[..|parts|] == parts;
    if limit.Some? {
      if built.None? {
        return Err(UnknownLength);
      }
      if built.value > limit.value {
        return Err(TooLarge);
      }
    }
    r := Ok(form);
  }
}
