/** `decode_mime_header`: a header value is split into encoded words by
    `email.header.decode_header` (not modelled) and the parts are decoded
    and concatenated in order. */
module MimeHeader {
  import opened Wrappers

  type Bytes = seq<bv8>

  /** One element of what `decode_header` returns: text that needed no
      decoding, or the bytes of an encoded word with the charset it names
      (absent or empty when it names none). */
  datatype HeaderPart = Text(text: string) | Encoded(data: Bytes, charset: Option<string>)

  /** Python's codecs: `data.decode(charset)`, or None when that raises (an
      unknown charset, or bytes that are invalid in it). */
  type Codec = (Bytes, string) -> Option<string>

  /** `encoding or 'utf-8'`: the charset an encoded part is decoded with. */
  function CharsetOf(charset: Option<string>): string {
    if charset.None? || charset.value == "" then "utf-8" else charset.value
  }

  /** One part as text, or None when its decoding raises. */
  function DecodePart(part: HeaderPart, codec: Codec): Option<string> {
    match part
    case Text(text) => Some(text)
    case Encoded(data, charset) => codec(data, CharsetOf(charset))
  }

  /** The header text built from `parts`: each part decoded, in order,
      appended to the text so far; None when any part's decoding raises. */
  function Decoded(parts: seq<HeaderPart>, codec: Codec): Option<string>
    decreases |parts|
  {
    if parts == [] then Some("")
    else
      var init := Decoded(parts[..|parts| - 1], codec);
      var last := DecodePart(parts[|parts| - 1], codec);
      if init.Some? && last.Some? then Some(init.value + last.value) else None
  }

  /** `decode_mime_header(header)`, with `decode_header` and the codecs
      given as functions; None stands for the exception it propagates. */
  method DecodeMimeHeader(header: string, decodeHeader: string -> seq<HeaderPart>, codec: Codec)
    returns (r: Option<string>)
    ensures r == Decoded(decodeHeader(header), codec)
  {
    var parts := decodeHeader(header);
    var decoded := "";
    for k := 0 to |parts|
      invariant Decoded(parts[..k], codec) == Some(decoded)
    {
      assert parts[..k + 1][..k] == parts[..k];
      match parts[k]
      case Encoded(data, charset) =>
        var text := codec(data, CharsetOf(charset));
        if text.None? {
          DecodedFailsIff(parts, codec);
          return None;
        }
        decoded := decoded + text.value;
      case Text(text) =>
        decoded := decoded + text;
    }
    assert parts[..|parts|] == parts;
    r := Some(decoded);
  }

  /** Decoding the header fails exactly when decoding one of its parts does. */
  lemma {:induction false} DecodedFailsIff(parts: seq<HeaderPart>, codec: Codec)
    ensures Decoded(parts, codec).None? <==> exists i | 0 <= i < |parts| :: DecodePart(parts[i], codec).None?
    decreases |parts|
  {
    if parts != [] {
      var init := parts[..|parts| - 1];
      DecodedFailsIff(init, codec);
      if exists i | 0 <= i < |init| :: DecodePart(init[i], codec).None? {
        var i :| 0 <= i < |init| && DecodePart(init[i], codec).None?;
        assert parts[i] == init[i];
      }
      if exists i | 0 <= i < |parts| :: DecodePart(parts[i], codec).None? {
        var i :| 0 <= i < |parts| && DecodePart(parts[i], codec).None?;
        if i < |init| { assert init[i] == parts[i]; }
      }
    }
  }

  /** Decoding keeps the order of the parts: the parts of `p + q` decode to
      the text of `p` followed by the text of `q`. */
  lemma {:induction false} DecodedConcat(p: seq<HeaderPart>, q: seq<HeaderPart>, codec: Codec)
    ensures Decoded(p + q, codec) ==
      if Decoded(p, codec).Some? && Decoded(q, codec).Some?
      then Some(Decoded(p, codec).value + Decoded(q, codec).value)
      else None
    decreases |q|
  {
    if q == [] {
      assert p + q == p;
      if Decoded(p, codec).Some? {
        assert Decoded(p, codec).value + "" == Decoded(p, codec).value;
      }
    } else {
      var pq := p + q;
      assert pq[..|pq| - 1] == p + q[..|q| - 1];
      assert pq[|pq| - 1] == q[|q| - 1];
      DecodedConcat(p, q[..|q| - 1], codec);
      var a, b, c := Decoded(p, codec), Decoded(q[..|q| - 1], codec), DecodePart(q[|q| - 1], codec);
      if a.Some? && b.Some? && c.Some? {
        assert a.value + b.value + c.value == a.value + (b.value + c.value);
      }
    }
  }
}
