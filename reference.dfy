/**
 * A reference tar codec: a header layout and a reader for it that together meet
 * `Archive.RoundTrips`, so the lemmas that assume it are not vacuous. A header is a non-zero
 * byte, then the size, the name's length and each character's code, every number written in
 * unary (that many 1 bytes, then a 0). A zero byte where a header would start is the end marker.
 */
module ReferenceTar {
  import opened Base
  import opened Archive

  function Unary(n: nat): (u: seq<byte>)
    ensures |u| == n + 1
  {
    seq(n, _ => 1) + [0]
  }

  /** The number written in unary at the front of b, and the bytes after it. */
  function ReadUnary(b: seq<byte>): (r: Option<(nat, seq<byte>)>)
    ensures r.Some? ==> |r.value.1| < |b|
  {
    if b == [] then None
    else if b[0] == 0 then Some((0, b[1..]))
    else match ReadUnary(b[1..])
      case None => None
      case Some((n, rest)) => Some((n + 1, rest))
  }

  lemma {:induction false} UnaryRoundTrip(n: nat, rest: seq<byte>)
    ensures ReadUnary(Unary(n) + rest) == Some((n, rest))
  {
    if n > 0 {
      UnaryRoundTrip(n - 1, rest);
      assert (Unary(n) + rest)[1..] == Unary(n - 1) + rest;
    } else {
      assert (Unary(0) + rest)[1..] == rest;
    }
  }

  function NameBytes(s: string): seq<byte>
  {
    if s == [] then [] else Unary(s[0] as nat) + NameBytes(s[1..])
  }

  /** The k characters written at the front of b, and the bytes after them. */
  function ReadName(k: nat, b: seq<byte>): (r: Option<(string, seq<byte>)>)
    ensures r.Some? ==> |r.value.1| <= |b|
  {
    if k == 0 then Some(([], b))
    else match ReadUnary(b)
      case None => None
      case Some((c, rest)) =>
        if !(c < 0xD800 || 0xE000 <= c < 0x11_0000) then None
        else match ReadName(k - 1, rest)
          case None => None
          case Some((s, after)) => Some(([c as char] + s, after))
  }

  lemma {:induction false} NameRoundTrip(s: string, rest: seq<byte>)
    ensures ReadName(|s|, NameBytes(s) + rest) == Some((s, rest))
  {
    if s != [] {
      var c := s[0] as nat;
      var after := NameBytes(s[1..]) + rest;
      assert NameBytes(s) + rest == Unary(c) + after;
      UnaryRoundTrip(c, after);
      NameRoundTrip(s[1..], rest);
      assert c < 0xD800 || 0xE000 <= c < 0x11_0000;
      assert [c as char] + s[1..] == s;
    } else {
      assert NameBytes(s) + rest == rest;
    }
  }

  function HeaderBytes(h: Header): seq<byte>
  {
    [1] + (Unary(h.size) + (Unary(|h.name|) + NameBytes(h.name)))
  }

  /** The header written at the front of b, and the bytes after it. */
  function ReadHeader(b: seq<byte>): (r: Option<(Header, seq<byte>)>)
    ensures r.Some? ==> |r.value.1| < |b|
  {
    if b == [] || b[0] == 0 then None
    else match ReadUnary(b[1..])
      case None => None
      case Some((size, b1)) =>
        match ReadUnary(b1)
        case None => None
        case Some((k, b2)) =>
          match ReadName(k, b2)
          case None => None
          case Some((name, b3)) => Some((Header(name, size), b3))
  }

  lemma HeaderRoundTrip(h: Header, rest: seq<byte>)
    ensures ReadHeader(HeaderBytes(h) + rest) == Some((h, rest))
  {
    var b2 := NameBytes(h.name) + rest;
    var b1 := Unary(|h.name|) + b2;
    var b := HeaderBytes(h) + rest;
    assert b == [1] + (Unary(h.size) + b1);
    assert b[1..] == Unary(h.size) + b1;
    UnaryRoundTrip(h.size, b1);
    UnaryRoundTrip(|h.name|, b2);
    NameRoundTrip(h.name, rest);
  }

  /** The reader: members one after the other until a zero byte, each body padded to whole blocks. */
  function Parse(b: seq<byte>): Stream
    decreases |b|
  {
    if b == [] then Stream([], Broken(EndOfFile))
    else if b[0] == 0 then Stream([], Eof)
    else match ReadHeader(b)
      case None => Stream([], Broken(CodecError("archive/tar: invalid tar header")))
      case Some((h, rest)) =>
        if |rest| < h.size + Pad(h.size) then Stream([], Broken(EndOfFile))
        else
          var s := Parse(rest[h.size + Pad(h.size)..]);
          Stream([Member(h, rest[..h.size], None)] + s.members, s.end)
  }

  function Reference(): Library
  {
    Library(_ => "application/x-tar", (c, raw) => Decoded(raw, None), _ => [], (c, b) => b,
            Parse, _ => true, HeaderBytes)
  }

  /** One member written whole, followed by the bytes tail, reads back as that member, then what tail reads as. */
  lemma ParseStep(h: Header, body: seq<byte>, tail: seq<byte>)
    requires |body| == h.size
    ensures var s := Parse(tail);
            Parse(HeaderBytes(h) + (body + Zeros(Pad(|body|)) + tail)) == Stream([Member(h, body, None)] + s.members, s.end)
  {
    var rest := body + Zeros(Pad(|body|)) + tail;
    HeaderRoundTrip(h, rest);
    assert rest[..h.size] == body;
    assert rest[h.size + Pad(h.size)..] == tail;
  }

  /** The bytes of a run of members, then the end marker: the first member's, then the rest. */
  lemma FirstMemberBytes(lib: Library, ms: seq<Member>)
    requires ms != []
    ensures TarBytes(lib, Flatten(ms)) + Trailer() ==
              lib.header(ms[0].hdr) + (ms[0].body + Zeros(Pad(|ms[0].body|)) + (TarBytes(lib, Flatten(ms[1..])) + Trailer()))
  {
    MemberBytes(lib, ms[0]);
    TarBytesAppend(lib, Records(ms[0]), Flatten(ms[1..]));
  }

  /** Whole, sized members written by the tar writer, then the end marker, read back as themselves. */
  lemma {:induction false} ParseWritten(ms: seq<Member>)
    requires forall i :: 0 <= i < |ms| ==> ms[i].fault.None? && |ms[i].body| == ms[i].hdr.size
    ensures Parse(TarBytes(Reference(), Flatten(ms)) + Trailer()) == Stream(ms, Eof)
  {
    if ms == [] {
      assert TarBytes(Reference(), Flatten(ms)) + Trailer() == Trailer();
    } else {
      var m := ms[0];
      ParseWritten(ms[1..]);
      FirstMemberBytes(Reference(), ms);
      ParseStep(m.hdr, m.body, TarBytes(Reference(), Flatten(ms[1..])) + Trailer());
      assert [Member(m.hdr, m.body, None)] + ms[1..] == ms;
    }
  }

  /** The reference codec meets the round-trip assumption. */
  lemma Holds()
    ensures RoundTrips(Reference())
  {
    forall ms: seq<Member> | forall i :: 0 <= i < |ms| ==> ms[i].fault.None? && |ms[i].body| == ms[i].hdr.size
      ensures Reference().parse(TarBytes(Reference(), Flatten(ms)) + Trailer()) == Stream(ms, Eof)
    {
      ParseWritten(ms);
    }
  }
}
