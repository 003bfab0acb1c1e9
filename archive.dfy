/**
 * Archive entries as the tar reader yields them and as the tar writer records them, and the
 * codecs the tool calls but does not implement (content sniffing, gzip, xz, the tar byte layout),
 * gathered in one `Library` value that every operation receives as a parameter.
 */
module Archive {
  import opened Base

  /** The part of a tar header the tool reads or sets. */
  datatype Header = Header(name: string, size: nat)

  /** What `os.Stat` reports about a regular file. */
  datatype FileInfo = FileInfo(name: string, size: nat)

  /**
   * `tar.FileInfoHeader(fi, link)` for a regular file: the name and size come from fi; link is
   * recorded only for symbolic links, which `os.Stat` never reports.
   */
  function FileInfoHeader(fi: FileInfo, link: string): (h: Header)
    ensures h.name == fi.name && h.size == fi.size
  {
    Header(fi.name, fi.size)
  }

  /** One member as the tar reader yields it: its header, the body bytes it could read, and the error that cut the body short, if any. */
  datatype Member = Member(hdr: Header, body: seq<byte>, fault: Option<Error>)

  /** How a member stream ends: `io.EOF`, or an error (a malformed header, a decoder failure). */
  datatype End = Eof | Broken(err: Error)

  /** A forward-only member stream: the members in order, then its end. */
  datatype Stream = Stream(members: seq<Member>, end: End)

  /** The error `Next` reports at the end: none for `io.EOF`. */
  function EndError(e: End): (r: Option<Error>)
    ensures r.None? <==> e.Eof?
  {
    match e
    case Eof => None
    case Broken(err) => Some(err)
  }

  /** What the tar writer has been given, in order: a header, or the bytes of a body. */
  datatype Record = HeaderRec(hdr: Header) | BodyRec(bytes: seq<byte>)

  /** The records a complete transfer of m writes: its header, then its body. */
  function Records(m: Member): seq<Record>
  {
    [HeaderRec(m.hdr), BodyRec(m.body)]
  }

  /** The records a complete transfer of ms writes, member after member. */
  function Flatten(ms: seq<Member>): (rs: seq<Record>)
    ensures |rs| == 2 * |ms|
  {
    if ms == [] then [] else Records(ms[0]) + Flatten(ms[1..])
  }

  lemma {:induction false} FlattenAppend(a: seq<Member>, b: seq<Member>)
    ensures Flatten(a + b) == Flatten(a) + Flatten(b)
  {
    if a != [] {
      assert (a + b)[1..] == a[1..] + b;
      FlattenAppend(a[1..], b);
    } else {
      assert a + b == b;
    }
  }

  /** The runs of xs one after the other. */
  function Concat<T>(xs: seq<seq<T>>): seq<T>
  {
    if xs == [] then [] else xs[0] + Concat(xs[1..])
  }

  /** The records of several member runs in sequence are the records of each run, run after run. */
  lemma {:induction false} FlattenConcat(mss: seq<seq<Member>>)
    ensures Flatten(Concat(mss)) == Concat(seq(|mss|, k requires 0 <= k < |mss| => Flatten(mss[k])))
  {
    if mss != [] {
      FlattenConcat(mss[1..]);
      FlattenAppend(mss[0], Concat(mss[1..]));
      var xs := seq(|mss|, k requires 0 <= k < |mss| => Flatten(mss[k]));
      assert xs[1..] == seq(|mss[1..]|, k requires 0 <= k < |mss[1..]| => Flatten(mss[1..][k]));
    }
  }

  /** Every body holds as many bytes as its header declares, as the members a tar reader yields whole do. */
  predicate Sized(ms: seq<Member>)
  {
    forall i :: 0 <= i < |ms| ==> |ms[i].body| == ms[i].hdr.size
  }

  lemma SizedJoin(a: seq<Member>, b: seq<Member>)
    requires Sized(a) && Sized(b)
    ensures Sized(a + b)
  {
    forall i | 0 <= i < |a + b| ensures |(a + b)[i].body| == (a + b)[i].hdr.size {
      if i >= |a| { assert (a + b)[i] == b[i - |a|]; }
    }
  }

  lemma {:induction false} SizedConcat(mss: seq<seq<Member>>)
    requires forall k :: 0 <= k < |mss| ==> Sized(mss[k])
    ensures Sized(Concat(mss))
  {
    if mss != [] {
      SizedConcat(mss[1..]);
      SizedJoin(mss[0], Concat(mss[1..]));
    }
  }

  /** Member i of ms is written at positions 2i (header) and 2i + 1 (body). */
  lemma {:induction false} FlattenAt(ms: seq<Member>, i: nat)
    requires i < |ms|
    ensures Flatten(ms)[2 * i] == HeaderRec(ms[i].hdr)
    ensures Flatten(ms)[2 * i + 1] == BodyRec(ms[i].body)
  {
    if i > 0 {
      FlattenAt(ms[1..], i - 1);
    }
  }

  /** What a decoder makes of a byte stream: it refuses the header, or it yields bytes and possibly a later error. */
  datatype Decoding = Rejected(err: Error) | Decoded(bytes: seq<byte>, fault: Option<Error>)

  /** The library code the tool calls, as total functions. */
  datatype Library = Library(
    detect: seq<byte> -> string,            // http.DetectContentType on a 512-byte probe
    inflate: (Codec, seq<byte>) -> Decoding, // gzip.NewReader / xz.NewReader and the reads through them
    preamble: Codec -> seq<byte>,           // the stream header a compressor writes before any data
    deflate: (Codec, seq<byte>) -> seq<byte>, // what follows it: the gzip (best compression) or xz encoding of a whole stream
    parse: seq<byte> -> Stream,             // tar.NewReader and its successive Next calls
    stops: seq<byte> -> bool,               // those calls end (at the end marker, or a malformed header) without asking for more bytes
    header: Header -> seq<byte>             // the header block tar.Writer.WriteHeader emits
  )

  const BlockSize: nat := 512

  /** The end-of-archive marker: two zero blocks. */
  const TrailerSize: nat := 2 * BlockSize

  function Trailer(): (t: seq<byte>)
    ensures |t| == TrailerSize
  {
    Zeros(TrailerSize)
  }

  /** The zero bytes that round a body of n bytes up to whole blocks. */
  function Pad(n: nat): (p: nat)
    ensures p < BlockSize && (n + p) % BlockSize == 0
  {
    var r := n % BlockSize;
    assert n == n / BlockSize * BlockSize + r;
    if r == 0 then 0
    else
      assert n + (BlockSize - r) == (n / BlockSize + 1) * BlockSize;
      BlockSize - r
  }

  /** The bytes the tar writer emits for one record. */
  function RecordBytes(lib: Library, r: Record): seq<byte>
  {
    match r
    case HeaderRec(h) => lib.header(h)
    case BodyRec(b) => b + Zeros(Pad(|b|))
  }

  /**
   * The body bytes the last header of rs still expects (`tar.Writer`'s logical remaining count):
   * its size less the body bytes written since, and nothing once the body is whole.
   */
  function Owed(rs: seq<Record>): nat
  {
    if rs == [] then 0
    else match rs[|rs| - 1]
      case HeaderRec(h) => h.size
      case BodyRec(b) => var o := Owed(rs[..|rs| - 1]); if |b| < o then o - |b| else 0
  }

  /** After a member's records, what is owed is the part of its declared size its body lacks. */
  lemma OwedAfter(rs: seq<Record>, m: Member)
    ensures Owed(rs + Records(m)) == if |m.body| < m.hdr.size then m.hdr.size - |m.body| else 0
  {
    var s := rs + Records(m);
    assert s[..|s| - 1] == rs + [HeaderRec(m.hdr)];
  }

  /** Members whose bodies hold their declared sizes leave nothing owed. */
  lemma {:induction false} OwedSized(ms: seq<Member>)
    requires forall i :: 0 <= i < |ms| ==> |ms[i].body| >= ms[i].hdr.size
    ensures Owed(Flatten(ms)) == 0
  {
    if ms != [] {
      var k := |ms| - 1;
      FlattenAppend(ms[..k], [ms[k]]);
      assert ms[..k] + [ms[k]] == ms;
      assert Flatten([ms[k]]) == Records(ms[k]);
      OwedAfter(Flatten(ms[..k]), ms[k]);
    }
  }

  /** The bytes the tar writer emits for a run of records. */
  function TarBytes(lib: Library, rs: seq<Record>): seq<byte>
  {
    if rs == [] then [] else RecordBytes(lib, rs[0]) + TarBytes(lib, rs[1..])
  }

  /** A member's records are its header block, then its body padded to whole blocks. */
  lemma MemberBytes(lib: Library, m: Member)
    ensures TarBytes(lib, Records(m)) == lib.header(m.hdr) + (m.body + Zeros(Pad(|m.body|)))
  {
    assert Records(m)[1..] == [BodyRec(m.body)];
    assert [BodyRec(m.body)][1..] == [];
    assert TarBytes(lib, [BodyRec(m.body)]) == m.body + Zeros(Pad(|m.body|)) + [];
  }

  lemma {:induction false} TarBytesAppend(lib: Library, a: seq<Record>, b: seq<Record>)
    ensures TarBytes(lib, a + b) == TarBytes(lib, a) + TarBytes(lib, b)
  {
    if a != [] {
      assert (a + b)[1..] == a[1..] + b;
      TarBytesAppend(lib, a[1..], b);
    } else {
      assert a + b == b;
    }
  }

  /** One more record adds its bytes at the end. */
  lemma TarBytesSnoc(lib: Library, rs: seq<Record>, r: Record)
    ensures TarBytes(lib, rs + [r]) == TarBytes(lib, rs) + RecordBytes(lib, r)
  {
    assert [r][1..] == [];
    assert TarBytes(lib, [r]) == RecordBytes(lib, r) + [];
    TarBytesAppend(lib, rs, [r]);
  }

  /** The bytes of several record runs in sequence are the bytes of each run, run after run. */
  lemma {:induction false} TarBytesConcat(lib: Library, rss: seq<seq<Record>>)
    ensures TarBytes(lib, Concat(rss)) == Concat(seq(|rss|, k requires 0 <= k < |rss| => TarBytes(lib, rss[k])))
  {
    if rss != [] {
      TarBytesConcat(lib, rss[1..]);
      TarBytesAppend(lib, rss[0], Concat(rss[1..]));
      var xs := seq(|rss|, k requires 0 <= k < |rss| => TarBytes(lib, rss[k]));
      assert xs[1..] == seq(|rss[1..]|, k requires 0 <= k < |rss[1..]| => TarBytes(lib, rss[1..][k]));
    }
  }

  /**
   * The stream s as a reader sees it when the bytes beneath it give out with err: every body cut
   * short and the end itself report err, which is what `io.ReadFull` and `io.Copy` pass on.
   */
  function CutShort(s: Stream, err: Error): (r: Stream)
    ensures |r.members| == |s.members| && r.end == Broken(err)
    ensures forall i :: 0 <= i < |s.members| ==>
              r.members[i].hdr == s.members[i].hdr && r.members[i].body == s.members[i].body &&
              r.members[i].fault == if s.members[i].fault.Some? then Some(err) else None
  {
    Stream(seq(|s.members|, i requires 0 <= i < |s.members| =>
                 var m := s.members[i]; if m.fault.Some? then m.(fault := Some(err)) else m),
           Broken(err))
  }

  /**
   * The members a tar reader yields when it reads through the decoder c over the bytes raw. A
   * decoder failure after the bytes it produced is seen only when the reader asks for more than
   * those bytes; a reader that stopped at the end marker never meets it.
   */
  function EntryStream(lib: Library, c: Codec, raw: seq<byte>): Stream
  {
    match lib.inflate(c, raw)
    case Rejected(err) => Stream([], Broken(err))
    case Decoded(bytes, None) => lib.parse(bytes)
    case Decoded(bytes, Some(err)) => if lib.stops(bytes) then lib.parse(bytes) else CutShort(lib.parse(bytes), err)
  }

  /**
   * A decoder failure that comes after the end marker changes nothing; one that comes before the
   * reader stops becomes the stream's end, with the same members.
   */
  lemma LateDecoderFault(lib: Library, c: Codec, raw: seq<byte>, bytes: seq<byte>, err: Error)
    requires lib.inflate(c, raw) == Decoded(bytes, Some(err))
    ensures lib.stops(bytes) ==> EntryStream(lib, c, raw) == lib.parse(bytes)
    ensures !lib.stops(bytes) ==>
              EntryStream(lib, c, raw).end == Broken(err) &&
              |EntryStream(lib, c, raw).members| == |lib.parse(bytes).members|
  {
  }

  /**
   * The tar codec reads back what the tar writer wrote, for members that arrived whole with as
   * many body bytes as their headers declare: the assumption the read-back halves of the merge
   * and append lemmas rest on. `ReferenceTar.Holds` shows a library that meets it.
   */
  ghost predicate RoundTrips(lib: Library)
  {
    forall ms: seq<Member> {:trigger Flatten(ms)} ::
      (forall i :: 0 <= i < |ms| ==> ms[i].fault.None? && |ms[i].body| == ms[i].hdr.size) ==>
        lib.parse(TarBytes(lib, Flatten(ms)) + Trailer()) == Stream(ms, Eof)
  }
}
