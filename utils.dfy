/**
 * utils/utils.go: sniffing a file's content type, opening a (compressed) tar stream over a file,
 * copying the members of such a stream or a single file into a tar writer, and preparing an
 * existing archive for appending.
 */
module Utils {
  import opened Base
  import opened Paths
  import opened Archive
  import opened Files
  import opened Writers
  import opened Tables
  import opened Transfer

  /** The 512-byte buffer `ReadContentType` hands to the sniffer: what one read gave, then zeros. */
  function Probe(rest: seq<byte>): (p: seq<byte>)
    ensures |p| == 512
    ensures forall i :: 0 <= i < 512 ==> p[i] == if i < |rest| then rest[i] else 0
  {
    rest[..Min(512, |rest|)] + Zeros(512 - Min(512, |rest|))
  }

  /** The error the first read of a file in state s meets: the operating system's, or `io.EOF` at the end. */
  function ReadError(s: FileState): (r: Option<Error>)
    ensures r.None? <==> s.Refusal(OpRead).None? && s.Remaining() != []
  {
    if s.Refusal(OpRead).Some? then s.Refusal(OpRead)
    else if s.Remaining() == [] then Some(EndOfFile)
    else None
  }

  /** The error `ReadContentType` returns for a file in state s: the read's, else the rewind's. */
  function SniffError(s: FileState): (r: Option<Error>)
    ensures r.None? <==> ReadError(s).None? && s.Refusal(OpSeek).None?
    ensures ReadError(s).Some? ==> r == ReadError(s)
  {
    if ReadError(s).Some? then ReadError(s) else s.Refusal(OpSeek)
  }

  /**
   * `ReadContentType`: one read of up to 512 bytes, the sniffer's verdict on the zero-padded
   * buffer, then a seek back to the start of the file. On either failure the file is closed.
   */
  method ReadContentType(file: Handle, lib: Library) returns (ct: string, err: Option<Error>)
    modifies file`pos, file`closes
    ensures err == old(SniffError(file.State()))
    ensures old(ReadError(file.State())).None? ==> ct == lib.detect(Probe(old(file.Remaining())))
    ensures old(ReadError(file.State())).Some? ==> ct == "" && file.pos == old(file.pos)
    ensures err.None? ==> file.pos == 0 && file.closes == old(file.closes)
    ensures err.Some? ==> file.closes == old(file.closes) + 1
  {
    var buff, rerr := file.Read(512);
    if rerr.Some? {
      var _ := file.Close();
      return "", rerr;
    }
    assert buff + Zeros(512 - |buff|) == Probe(old(file.Remaining()));
    ct := lib.detect(buff + Zeros(512 - |buff|));
    err := file.Seek(0, false);
    if err.Some? {
      var _ := file.Close();
    }
  }

  /** `Crdr`: the decoder stacked on an input file (None: no decoder was made), closed through the file. */
  class Crdr {
    const fin: Handle
    const codec: Option<Codec>

    constructor (fin: Handle, codec: Option<Codec>)
      ensures this.fin == fin && this.codec == codec
    {
      this.fin := fin;
      this.codec := codec;
    }

    /** `Crdr.Close`: closes the input file and returns what that returns. */
    method Close() returns (err: Option<Error>)
      modifies fin`closes
      ensures fin.closes == old(fin.closes) + 1
      ensures err == old(fin.Refusal(OpClose))
    {
      err := fin.Close();
    }
  }

  /** The error `NewCrdr` returns for content type ct over a file in state s. */
  function CrdrError(s: FileState, ct: string, lib: Library): (r: Option<Error>)
    ensures CrdrCodec(ct).None? ==> r == Some(UnknownType(s.name, ct))
    ensures CrdrCodec(ct).Some? ==>
              (r.None? <==> s.Refusal(OpRead).None? && lib.inflate(CrdrCodec(ct).value, s.Remaining()).Decoded?)
  {
    match CrdrCodec(ct)
    case None => Some(UnknownType(s.name, ct))
    case Some(c) =>
      if s.Refusal(OpRead).Some? then s.Refusal(OpRead)
      else match lib.inflate(c, s.Remaining())
        case Rejected(e) => Some(e)
        case Decoded(_, _) => None
  }

  /**
   * `NewCrdr`: a gzip decoder for the gzip type, an xz decoder for the tar type; any other type
   * closes the file and is an "unknown file type" error. Making a decoder reads its header.
   */
  method NewCrdr(fin: Handle, ct: string, lib: Library) returns (c: Crdr, err: Option<Error>)
    modifies fin`closes
    ensures fresh(c) && c.fin == fin && c.codec == CrdrCodec(ct)
    ensures err == old(CrdrError(fin.State(), ct, lib))
    ensures fin.closes == old(fin.closes) + (if CrdrCodec(ct).None? then 1 else 0)
  {
    var codec := CrdrCodec(ct);
    c := new Crdr(fin, codec);
    match codec
    case None =>
      var _ := fin.Close();
      err := Some(UnknownType(fin.name, ct));
    case Some(k) =>
      err := fin.Refusal(OpRead);
      if err.None? {
        match lib.inflate(k, fin.Remaining())
        case Rejected(e) => err := Some(e);
        case Decoded(_, _) => err := None;
      }
  }

  /** What one `Next` call of a tar reader gives: a member, or the end with its error. */
  datatype Step = Item(member: Member) | Stop(err: Option<Error>)

  /** `TarReader`: a tar reader over a member stream, and the `os.Stat` result of its file. */
  class TarReader {
    const stream: Stream
    const info: FileInfo
    var next: nat

    constructor (stream: Stream, info: FileInfo)
      ensures this.stream == stream && this.info == info && next == 0
    {
      this.stream := stream;
      this.info := info;
      next := 0;
    }

    /** The members `Next` has yet to yield. */
    function Rest(): (ms: seq<Member>)
      reads this
      ensures |ms| <= |stream.members|
    {
      if next <= |stream.members| then stream.members[next..] else []
    }

    /** `Next`: the next member, or the end of the stream again and again. */
    method Next() returns (step: Step)
      modifies this`next
      ensures old(Rest()) != [] ==> step == Item(old(Rest())[0]) && Rest() == old(Rest())[1..]
      ensures old(Rest()) == [] ==> step == Stop(EndError(stream.end)) && Rest() == []
    {
      if next < |stream.members| {
        step := Item(stream.members[next]);
        next := next + 1;
      } else {
        step := Stop(EndError(stream.end));
      }
    }
  }

  /** How `GetReader` ends: failed with an error after closing the file n times, or ready to read members through codec c over raw. */
  datatype Opened = Failed(err: Error, closes: nat) | Ready(codec: Codec, raw: seq<byte>)

  /** The content type `GetReader` settles on: the hint's, or the sniffer's. */
  function ContentType(s: FileState, format: string, lib: Library): string
  {
    if format != "" then GetCTFromFormat(format) else lib.detect(Probe(s.Remaining()))
  }

  /**
   * `GetReader` on a file in state s, step by step: `Stat`, then the content type (the hint, or
   * sniffing, which rewinds to offset 0), then the decoder. A sniffing failure and an unknown type
   * close the file twice, once in the callee and once in `GetReader`.
   */
  function ReaderOutcome(s: FileState, format: string, lib: Library): (o: Opened)
    ensures o.Failed? ==> 1 <= o.closes <= 2
  {
    if s.Refusal(OpStat).Some? then Failed(s.Refusal(OpStat).value, 1)
    else if format == "" && SniffError(s).Some? then Failed(SniffError(s).value, 2)
    else
      var ct := ContentType(s, format, lib);
      var s' := if format == "" then s.(pos := 0) else s;
      match CrdrError(s', ct, lib)
      case Some(e) => Failed(Opening(s.name, e), if CrdrCodec(ct).None? then 2 else 1)
      case None => Ready(CrdrCodec(ct).value, s'.Remaining())
  }

  /**
   * `GetReader`: no file is the "file input is empty" error; every failure after that closes the
   * file; success gives a tar reader over the decoded members and the closer of the file.
   */
  method GetReader(fin: Handle?, format: string, lib: Library) returns (tr: TarReader?, rc: Crdr?, err: Option<Error>)
    modifies fin
    ensures fin == null ==> err == Some(NilInput) && tr == null && rc == null
    ensures fin != null ==> fin.node.data == old(fin.node.data)
    ensures fin != null ==> var o := old(ReaderOutcome(fin.State(), format, lib));
              (o.Failed? ==> err == Some(o.err) && tr == null && fin.closes == old(fin.closes) + o.closes) &&
              (o.Ready? ==>
                 err.None? && tr != null && rc != null && fresh(tr) && fresh(rc) &&
                 rc.fin == fin && rc.codec == Some(o.codec) && fin.closes == old(fin.closes) &&
                 tr.stream == EntryStream(lib, o.codec, o.raw) && tr.next == 0 &&
                 tr.info == FileInfo(BaseName(fin.name), |fin.node.data|))
  {
    tr, rc := null, null;
    if fin == null {
      err := Some(NilInput);
      return;
    }
    ghost var s := fin.State();
    var fi;
    fi, err := fin.Stat();
    if err.Some? {
      var _ := fin.Close();
      return;
    }
    var ct := "";
    if format != "" {
      ct := GetCTFromFormat(format);
    } else {
      ct, err := ReadContentType(fin, lib);
      if err.Some? {
        var _ := fin.Close();
        return;
      }
    }
    assert fin.State() == if format == "" then s.(pos := 0) else s;
    var c, cerr := NewCrdr(fin, ct, lib);
    rc := c;
    if cerr.Some? {
      var _ := fin.Close();
      err := Some(Opening(fin.name, cerr.value));
      return;
    }
    tr := new TarReader(EntryStream(lib, c.codec.value, fin.Remaining()), fi);
  }

  /** `OpenTarFile`: opens pth and hands it to `GetReader` without a hint. */
  method OpenTarFile(fs: FileSystem, pth: string, lib: Library) returns (tr: TarReader?, rc: Crdr?, err: Option<Error>)
    ensures fs.OpenRefusal(pth).Some? ==> err == fs.OpenRefusal(pth) && tr == null && rc == null
    ensures fs.OpenRefusal(pth).None? ==>
              var o := ReaderOutcome(FileState(pth, fs.files[pth].faults, false, fs.files[pth].data, 0, 0), "", lib);
              (o.Failed? ==> err == Some(o.err) && tr == null) &&
              (o.Ready? ==>
                 err.None? && tr != null && rc != null && fresh(tr) && fresh(rc) && fresh(rc.fin) &&
                 rc.fin.node == fs.files[pth] && rc.fin.name == pth && !rc.fin.writable &&
                 rc.fin.closes == 0 && rc.codec == Some(o.codec) &&
                 tr.stream == EntryStream(lib, o.codec, o.raw) && tr.next == 0)
  {
    var fin;
    fin, err := fs.Open(pth);
    if err.Some? {
      return null, null, err;
    }
    tr, rc, err := GetReader(fin, "", lib);
  }

  /**
   * With a format hint `GetReader` neither sniffs nor rewinds: the sniffer's verdict and the
   * file's seek faults make no difference, and the members are read from the cursor on.
   */
  lemma HintSkipsSniffing(s: FileState, format: string, lib: Library, other: seq<byte> -> string)
    requires format != ""
    ensures ReaderOutcome(s, format, lib) == ReaderOutcome(s.(faults := s.faults - {OpSeek}), format, lib.(detect := other))
    ensures ReaderOutcome(s, format, lib).Ready? ==> ReaderOutcome(s, format, lib).raw == s.Remaining()
  {
    var t := s.(faults := s.faults - {OpSeek});
    assert t.Refusal(OpStat) == s.Refusal(OpStat);
    assert t.Refusal(OpRead) == s.Refusal(OpRead);
  }

  /**
   * Without a hint, a stream that is already at its end cannot be sniffed: `GetReader` fails with
   * `io.EOF` and closes the file twice.
   */
  lemma {:induction false} DrainedInputIsEndOfFile(s: FileState, lib: Library)
    requires s.Refusal(OpStat).None? && s.Refusal(OpRead).None? && s.Remaining() == []
    ensures ReaderOutcome(s, "", lib) == Failed(EndOfFile, 2)
  {
    assert ReadError(s) == Some(EndOfFile);
  }

  /**
   * Without a hint, a file `GetReader` accepts is read from its first byte, whatever its cursor
   * was, through the decoder its sniffed type selects.
   */
  lemma {:induction false} SniffedReaderRewinds(s: FileState, lib: Library)
    requires ReaderOutcome(s, "", lib).Ready?
    ensures var o := ReaderOutcome(s, "", lib);
            o.raw == s.data && Some(o.codec) == CrdrCodec(lib.detect(Probe(s.Remaining())))
  {
    var s' := s.(pos := 0);
    assert s'.Remaining() == s.data;
  }

  /** `io.Copy` through the decoder c picks (the file itself when None) over raw, when the read of the file met rerr. */
  function ReadThrough(c: Option<Codec>, raw: seq<byte>, rerr: Option<Error>, lib: Library): Decoding
  {
    match c
    case None => if rerr.Some? then Decoded([], rerr) else Decoded(raw, None)
    case Some(k) => if rerr.Some? then Rejected(rerr.value) else lib.inflate(k, raw)
  }

  /**
   * What `GetSeekedTar` copies out of an input in state s once sniffing has rewound it: the file
   * through the decoder its content type and extension pick (gzip for the gzip type, xz for the
   * tar type named *.xz), or the file itself.
   */
  function SeekedDecoding(s: FileState, lib: Library): Decoding
  {
    ReadThrough(SeekedCodec(lib.detect(Probe(s.Remaining())), Ext(s.name)), s.data, s.Refusal(OpRead), lib)
  }

  /** How `GetSeekedTar` ends: the output file's bytes, how often the output handle was closed, the error, and the cursor of the reopened file, if it was reopened. */
  datatype Seeked = Seeked(data: seq<byte>, closes: nat, err: Option<Error>, reopened: bool, cursor: nat)

  /**
   * The second half of `GetSeekedTar`, for an output in state o whose path reopens with the error
   * reopen: copy bytes (no write at all when there are none), then the decoder's fault, close the
   * output, reopen it read-write, and move its cursor seek bytes from the start or, for a negative
   * seek, -seek bytes before the end. Each stage's error ends it.
   */
  function CopiedOutcome(o: FileState, bytes: seq<byte>, fault: Option<Error>, reopen: Option<Error>, seek: int): (r: Seeked)
    ensures r.err.None? ==> r.reopened && r.closes == 1
    ensures r.closes <= 1 && (r.reopened ==> r.closes == 1)
  {
    var w := if bytes == [] then None else o.Refusal(OpWrite);
    if w.Some? then Seeked(o.data, 0, w, false, 0)
    else
      var data := Overwrite(o.data, o.pos, bytes);
      if fault.Some? then Seeked(data, 0, fault, false, 0)
      else if o.Refusal(OpClose).Some? then Seeked(data, 1, o.Refusal(OpClose), false, 0)
      else if reopen.Some? then Seeked(data, 1, reopen, false, 0)
      else
        var target := if seek < 0 then |data| + seek else seek;
        var serr := Refused(o.name, o.faults, true, 0, OpSeek);
        if serr.Some? then Seeked(data, 1, serr, true, 0)
        else if target < 0 then Seeked(data, 1, Some(PathError(OpSeek, o.name, Invalid)), true, 0)
        else Seeked(data, 1, None, true, target)
  }

  /** `GetSeekedTar` for an input in state s and an output in state o whose path reopens with the error reopen. */
  function SeekedOutcome(s: FileState, o: FileState, reopen: Option<Error>, seek: int, lib: Library): (r: Seeked)
  {
    if SniffError(s).Some? then Seeked(o.data, 0, SniffError(s), false, 0)
    else match SeekedDecoding(s, lib)
      case Rejected(e) => Seeked(o.data, 0, Some(e), false, 0)
      case Decoded(bytes, fault) => CopiedOutcome(o, bytes, fault, reopen, seek)
  }

  /** `io.Copy` of a decoder's bytes into a file: one write, none at all when there is nothing; the write's error comes before the decoder's. */
  method CopyInto(output: Handle, bytes: seq<byte>, fault: Option<Error>) returns (err: Option<Error>)
    modifies output`pos, output.node`data
    ensures var w := if bytes == [] then None else old(output.Refusal(OpWrite));
            err == (if w.Some? then w else fault) &&
            output.node.data == (if w.Some? then old(output.node.data) else Overwrite(old(output.node.data), old(output.pos), bytes))
  {
    err := None;
    if bytes != [] {
      err := output.Write(bytes);
      if err.Some? {
        return;
      }
    }
    err := fault;
  }

  /** The copy, close, reopen and seek of `GetSeekedTar`. */
  method CopyAndReopen(fs: FileSystem, output: Handle, bytes: seq<byte>, fault: Option<Error>, seek: int)
    returns (out: Handle?, err: Option<Error>)
    requires output.name in fs.files ==> fs.files[output.name] == output.node
    modifies output`pos, output`closes, output.node`data
    ensures var r := CopiedOutcome(old(output.State()), bytes, fault, old(fs.OpenRefusal(output.name)), seek);
            output.node.data == r.data && output.closes == old(output.closes) + r.closes && err == r.err &&
            (out != null <==> r.reopened) &&
            (out != null ==> fresh(out) && out.node == output.node && out.name == output.name && out.writable &&
                             out.closes == 0 && (err.None? ==> out.pos == r.cursor))
  {
    out := null;
    err := CopyInto(output, bytes, fault);
    if err.Some? {
      return;
    }
    err := output.Close();
    if err.Some? {
      return;
    }
    out, err := fs.OpenReadWrite(output.name);
    if err.Some? {
      return;
    }
    err := out.Seek(seek, seek < 0);
  }

  /**
   * `GetSeekedTar`: copies the decoded input into the output, closes the output, reopens it by
   * name for reading and writing, and seeks. The reopened file is returned once it is open, even
   * when the seek fails. The input is never closed, except by a failed sniff.
   */
  method GetSeekedTar(fs: FileSystem, input: Handle, output: Handle, seek: int, lib: Library)
    returns (out: Handle?, err: Option<Error>)
    requires input.node != output.node
    requires output.name in fs.files ==> fs.files[output.name] == output.node
    modifies input`pos, input`closes, output`pos, output`closes, output.node`data
    ensures var r := SeekedOutcome(old(input.State()), old(output.State()), old(fs.OpenRefusal(output.name)), seek, lib);
            output.node.data == r.data && output.closes == old(output.closes) + r.closes && err == r.err &&
            (out != null <==> r.reopened) &&
            (out != null ==> fresh(out) && out.node == output.node && out.name == output.name && out.writable &&
                             out.closes == 0 && (err.None? ==> out.pos == r.cursor))
    ensures input.closes == old(input.closes) + if SniffError(old(input.State())).Some? then 1 else 0
    ensures err.None? ==> input.pos == |old(input.node.data)|
  {
    ghost var s, o := input.State(), output.State();
    ghost var r := SeekedOutcome(s, o, fs.OpenRefusal(output.name), seek, lib);
    out := null;
    var ext := Ext(input.name);
    var ct;
    ct, err := ReadContentType(input, lib);
    if err.Some? {
      assert output.State() == o && r == Seeked(o.data, 0, err, false, 0);
      return;
    }
    assert input.State() == s.(pos := 0);
    var raw, rerr := input.ReadAll();
    var d := ReadThrough(SeekedCodec(ct, ext), raw, rerr, lib);
    assert d == SeekedDecoding(s, lib);
    assert output.State() == o;
    if d.Rejected? {
      assert r == Seeked(o.data, 0, Some(d.err), false, 0);
      return null, Some(d.err);
    }
    assert r == CopiedOutcome(o, d.bytes, d.fault, fs.OpenRefusal(output.name), seek);
    out, err := CopyAndReopen(fs, output, d.bytes, d.fault, seek);
  }

  /**
   * Once sniffing succeeded the file is readable, so the decoder sees all of it: gzip data is
   * gunzipped, tar-typed data named *.xz is unxz'd, and anything else is copied unchanged.
   */
  lemma SeekedDecoder(s: FileState, lib: Library)
    requires SniffError(s).None?
    ensures var ct := lib.detect(Probe(s.Remaining()));
            SeekedDecoding(s, lib) ==
              if ct == GzipCT then lib.inflate(Gzip, s.data)
              else if ct == TarCT && Ext(s.name) == ".xz" then lib.inflate(Xz, s.data)
              else Decoded(s.data, None)
  {
    assert s.Refusal(OpRead).None?;
  }

  /**
   * Into a fresh output that accepts everything, a clean copy of bytes followed by a seek of
   * -n leaves exactly bytes in the file, and succeeds exactly when the file holds at least n bytes,
   * with the cursor n bytes before the end; a larger window is an "invalid argument" seek error.
   */
  lemma {:induction false} SeekedWindow(o: FileState, bytes: seq<byte>, n: nat)
    requires n > 0
    requires o.data == [] && o.pos == 0 && o.closes == 0 && o.writable
    requires OpWrite !in o.faults && OpClose !in o.faults && OpSeek !in o.faults
    ensures var r := CopiedOutcome(o, bytes, None, None, -(n as int));
            r.data == bytes && r.reopened &&
            (r.err.None? <==> n <= |bytes|) &&
            (r.err.None? ==> r.cursor == |bytes| - n) &&
            (r.err.Some? ==> r.err == Some(PathError(OpSeek, o.name, Invalid)))
  {
    if bytes != [] {
      assert Overwrite(o.data, 0, bytes) == [][..0] + bytes + [];
    }
  }

  /** `FileExistAndNotEmpty`: there is a file, `Stat` succeeds on it, and it holds at least one byte. */
  function FileExistAndNotEmpty(file: Handle?): (b: bool)
    reads file, if file == null then {} else {file.node}
    ensures b <==> file != null && file.Refusal(OpStat).None? && |file.node.data| > 0
  {
    if file == null then false
    else if file.Refusal(OpStat).Some? then false
    else |file.node.data| > 0
  }

  /** `appendPart`: the member's header, then its body as far as it could be read; the first error is the result. */
  method AppendPart(tw: TarWriter, m: Member) returns (err: Option<Error>)
    modifies tw`records, tw`err, tw.Footprint()
    ensures err == if old(tw.Refusal()).Some? then old(tw.Refusal()) else m.fault
    ensures tw.records == old(tw.records) + (if old(tw.Refusal()).None? then Records(m) else [])
    ensures tw.Refusal() == old(tw.Refusal())
    ensures old(tw.Tracks()) ==> tw.Tracks()
  {
    err := tw.Write(HeaderRec(m.hdr));
    if err.Some? {
      return;
    }
    err := tw.Write(BodyRec(m.body));
    err := m.fault;
  }

  /** One turn of either loop: `Next`, then, for a member, `appendPart`. */
  method NextPart(tw: TarWriter, tr: TarReader) returns (step: Step, werr: Option<Error>, ghost added: seq<Record>)
    modifies tw`records, tw`err, tw.Footprint(), tr`next
    ensures old(tr.Rest()) == [] <==> step.Stop?
    ensures step.Stop? ==> step.err == EndError(tr.stream.end) && tw.records == old(tw.records)
    ensures step.Item? ==> step.member == old(tr.Rest())[0] && tr.Rest() == old(tr.Rest())[1..]
    ensures step.Item? ==> werr == if old(tw.Refusal()).Some? then old(tw.Refusal()) else step.member.fault
    ensures step.Item? ==> added == (if old(tw.Refusal()).None? then Records(step.member) else [])
    ensures step.Item? ==> tw.records == old(tw.records) + added
    ensures tw.Refusal() == old(tw.Refusal())
    ensures old(tw.Tracks()) ==> tw.Tracks()
  {
    step := tr.Next();
    werr, added := None, [];
    if step.Item? {
      added := if tw.Refusal().None? then Records(step.member) else [];
      werr := AppendPart(tw, step.member);
    }
  }

  /** `AddTarFromWriter`'s loop: the members the reader has left go to the writer as `Drain` says. */
  method CopyEntries(tw: TarWriter, tr: TarReader) returns (err: Option<Error>)
    modifies tw`records, tw`err, tw.Footprint(), tr`next
    ensures var o := Drain(old(tr.Rest()), tr.stream.end, old(tw.Refusal()));
            tw.records == old(tw.records) + o.records && err == o.err
    ensures tw.Refusal() == old(tw.Refusal())
    ensures old(tw.Tracks()) ==> tw.Tracks()
  {
    ghost var r0, rec0, end := tw.Refusal(), tw.records, tr.stream.end;
    ghost var left := tr.Rest();
    ghost var o := Drain(left, end, r0);
    ghost var written: seq<Record> := [];
    while true
      invariant tr.Rest() == left
      invariant tw.records == rec0 + written
      invariant Resumes(o, written, Drain(left, end, r0))
      invariant tw.Refusal() == r0
      invariant old(tw.Tracks()) ==> tw.Tracks()
      decreases |left|
    {
      var step, werr, added := NextPart(tw, tr);
      if step.Stop? {
        DrainEnds(o, written, end, r0);
        return step.err;
      }
      DrainAdvances(o, written, left, end, r0, added, werr);
      AppendAssoc(rec0, written, added);
      if werr.Some? {
        return werr;
      }
      written, left := written + added, left[1..];
    }
  }

  /**
   * `AddTarFromBuffer`'s loop: the same transfer, except that the `err :=` in its body declares a
   * fresh variable, so a failed `WriteHeader` or copy ends the loop without becoming the result.
   */
  method CopyEntriesSwallowing(tw: TarWriter, tr: TarReader) returns (err: Option<Error>)
    modifies tw`records, tw`err, tw.Footprint(), tr`next
    ensures var o := DrainSwallowing(old(tr.Rest()), tr.stream.end, old(tw.Refusal()));
            tw.records == old(tw.records) + o.records && err == o.err
    ensures tw.Refusal() == old(tw.Refusal())
    ensures old(tw.Tracks()) ==> tw.Tracks()
  {
    ghost var r0, rec0, end := tw.Refusal(), tw.records, tr.stream.end;
    ghost var left := tr.Rest();
    ghost var o := DrainSwallowing(left, end, r0);
    ghost var written: seq<Record> := [];
    while true
      invariant tr.Rest() == left
      invariant tw.records == rec0 + written
      invariant Resumes(o, written, DrainSwallowing(left, end, r0))
      invariant tw.Refusal() == r0
      invariant old(tw.Tracks()) ==> tw.Tracks()
      decreases |left|
    {
      var step, werr, added := NextPart(tw, tr);
      if step.Stop? {
        DrainSwallowingEnds(o, written, end, r0);
        return step.err;
      }
      DrainSwallowingAdvances(o, written, left, end, r0, added, werr);
      AppendAssoc(rec0, written, added);
      if werr.Some? {
        return None;
      }
      written, left := written + added, left[1..];
    }
  }

  /** `AddTarFromWriter`: the loop, then the input is closed either way; its Close error is the result when the loop succeeded. */
  method AddTarFromWriter(tw: TarWriter, tr: TarReader, rc: Crdr) returns (err: Option<Error>)
    requires rc.fin !in tw.Footprint()
    modifies tw`records, tw`err, tw.Footprint(), tr`next, rc.fin`closes
    ensures var o := Drain(old(tr.Rest()), tr.stream.end, old(tw.Refusal()));
            tw.records == old(tw.records) + o.records &&
            err == if o.err.Some? then o.err else old(rc.fin.Refusal(OpClose))
    ensures rc.fin.closes == old(rc.fin.closes) + 1
    ensures tw.Refusal() == old(tw.Refusal())
    ensures old(tw.Tracks()) ==> tw.Tracks()
  {
    err := CopyEntries(tw, tr);
    if err.Some? {
      var _ := rc.Close();
      return;
    }
    err := rc.Close();
  }

  /** `AddTarFromBuffer`: the swallowing loop, then the input is closed either way. */
  method AddTarFromBuffer(tw: TarWriter, tr: TarReader, rc: Crdr) returns (err: Option<Error>)
    requires rc.fin !in tw.Footprint()
    modifies tw`records, tw`err, tw.Footprint(), tr`next, rc.fin`closes
    ensures var o := DrainSwallowing(old(tr.Rest()), tr.stream.end, old(tw.Refusal()));
            tw.records == old(tw.records) + o.records &&
            err == if o.err.Some? then o.err else old(rc.fin.Refusal(OpClose))
    ensures rc.fin.closes == old(rc.fin.closes) + 1
    ensures tw.Refusal() == old(tw.Refusal())
    ensures old(tw.Tracks()) ==> tw.Tracks()
  {
    err := CopyEntriesSwallowing(tw, tr);
    if err.Some? {
      var _ := rc.Close();
      return;
    }
    err := rc.Close();
  }

  /** A file the directory holds, as `os.Open` gives it: read-only, at offset 0, not closed. */
  ghost function Snapshot(fs: FileSystem, pth: string): (s: FileState)
    requires pth in fs.files
    reads fs, fs.files[pth]
    ensures s.name == pth && s.pos == 0 && s.closes == 0 && !s.writable
  {
    FileState(pth, fs.files[pth].faults, false, fs.files[pth].data, 0, 0)
  }

  /**
   * What `AddTar` adds to a writer whose next write meets refusal, for a file opened in state s:
   * nothing and `GetReader`'s error, or the transfer loop's records and its error, else the
   * error closing the file.
   */
  function TarOutcome(s: FileState, refusal: Option<Error>, lib: Library): (o: Outcome)
  {
    match ReaderOutcome(s, "", lib)
    case Failed(e, _) => Outcome([], Some(e))
    case Ready(c, raw) =>
      var st := EntryStream(lib, c, raw);
      var d := Drain(st.members, st.end, refusal);
      Outcome(d.records, if d.err.Some? then d.err else s.Refusal(OpClose))
  }

  /** `OpenTarFile` on a file apart from the tar writer, which it leaves as it was. */
  method OpenTarApart(tw: TarWriter, fs: FileSystem, pth: string, lib: Library) returns (tr: TarReader?, rc: Crdr?, err: Option<Error>)
    ensures fs.OpenRefusal(pth).Some? ==> err == fs.OpenRefusal(pth)
    ensures fs.OpenRefusal(pth).None? ==>
              var s := Snapshot(fs, pth);
              var o := ReaderOutcome(s, "", lib);
              (o.Failed? ==> err == Some(o.err)) &&
              (o.Ready? ==>
                 err.None? && tr != null && rc != null && fresh(tr) && fresh(rc.fin) && rc.fin.Refusal(OpClose) == s.Refusal(OpClose) &&
                 tr.stream == EntryStream(lib, o.codec, o.raw) && tr.next == 0)
    ensures tw.Refusal() == old(tw.Refusal()) && (old(tw.Tracks()) ==> tw.Tracks())
  {
    tr, rc, err := OpenTarFile(fs, pth, lib);
  }

  /** `AddTar`: `OpenTarFile`, then `AddTarFromWriter`. */
  method AddTar(tw: TarWriter, fs: FileSystem, pth: string, lib: Library) returns (err: Option<Error>)
    modifies tw`records, tw`err, tw.Footprint()
    ensures old(fs.OpenRefusal(pth)).Some? ==> err == old(fs.OpenRefusal(pth)) && tw.records == old(tw.records)
    ensures old(fs.OpenRefusal(pth)).None? ==>
              var o := TarOutcome(old(Snapshot(fs, pth)), old(tw.Refusal()), lib);
              tw.records == old(tw.records) + o.records && err == o.err
    ensures tw.Refusal() == old(tw.Refusal())
    ensures old(tw.Tracks()) ==> tw.Tracks()
  {
    ghost var s := if pth in fs.files then Snapshot(fs, pth) else FileState(pth, map[], false, [], 0, 0);
    ghost var o := TarOutcome(s, tw.Refusal(), lib);
    var tr, rc;
    tr, rc, err := OpenTarApart(tw, fs, pth, lib);
    if err.Some? {
      return;
    }
    err := AddTarFromWriter(tw, tr, rc);
    assert err == o.err;
  }

  /**
   * What `AddFileFromBuffer` adds to a writer whose next write meets refusal, for a file in state
   * s described by fi: the header named after fi (the directory argument names a link target,
   * which a regular file does not have), then the rest of the file; then the error closing it.
   */
  function FileOutcome(s: FileState, fi: FileInfo, directory: string, refusal: Option<Error>): (o: Outcome)
    ensures o.err.None? ==> o.records == [HeaderRec(Header(fi.name, fi.size)), BodyRec(s.Remaining())]
    ensures refusal.Some? ==> o == Outcome([], refusal)
  {
    if refusal.Some? then Outcome([], refusal)
    else
      var h := HeaderRec(FileInfoHeader(fi, directory + fi.name));
      if s.Refusal(OpRead).Some? then Outcome([h], s.Refusal(OpRead))
      else Outcome([h, BodyRec(s.Remaining())], s.Refusal(OpClose))
  }

  /** `appendFile`: the header made from fi, then the file copied from its cursor to its end. */
  method AppendFile(tw: TarWriter, file: Handle, fi: FileInfo, directory: string) returns (err: Option<Error>)
    requires file !in tw.Footprint() && file.node !in tw.Footprint()
    modifies tw`records, tw`err, tw.Footprint(), file`pos
    ensures var o := old(FileOutcome(file.State(), fi, directory, tw.Refusal()));
            tw.records == old(tw.records) + o.records &&
            err == (if o.err.Some? && (old(tw.Refusal()).Some? || old(file.Refusal(OpRead)).Some?) then o.err else None)
    ensures tw.Refusal() == old(tw.Refusal())
    ensures old(tw.Tracks()) ==> tw.Tracks()
  {
    var hdr := FileInfoHeader(fi, directory + fi.name);
    err := tw.Write(HeaderRec(hdr));
    if err.Some? {
      return;
    }
    var bytes;
    bytes, err := file.ReadAll();
    if err.Some? {
      return;
    }
    err := tw.Write(BodyRec(bytes));
  }

  /** `AddFileFromBuffer`: `appendFile`, then, only when that succeeded, the file is closed. */
  method AddFileFromBuffer(tw: TarWriter, file: Handle, fi: FileInfo, directory: string) returns (err: Option<Error>)
    requires file !in tw.Footprint() && file.node !in tw.Footprint()
    modifies tw`records, tw`err, tw.Footprint(), file`pos, file`closes
    ensures var o := old(FileOutcome(file.State(), fi, directory, tw.Refusal()));
            tw.records == old(tw.records) + o.records && err == o.err
    ensures var appended := old(tw.Refusal()).None? && old(file.Refusal(OpRead)).None?;
            file.closes == old(file.closes) + (if appended then 1 else 0)
    ensures tw.Refusal() == old(tw.Refusal())
    ensures old(tw.Tracks()) ==> tw.Tracks()
  {
    err := AppendFile(tw, file, fi, directory);
    if err.Some? {
      return;
    }
    err := file.Close();
  }

  /**
   * What `AddFile` adds for the file at s.name, opened in state s, to a writer whose next write
   * meets refusal: the `os.Stat` or `os.Open` error, or what `OpenedOutcome` says.
   */
  function AddFileOutcome(s: FileState, directory: string, refusal: Option<Error>, lib: Library): (o: Outcome)
  {
    if s.Refusal(OpStat).Some? then Outcome([], s.Refusal(OpStat))
    else if s.Refusal(OpOpen).Some? then Outcome([], s.Refusal(OpOpen))
    else OpenedOutcome(s, directory, refusal, lib)
  }

  /**
   * What `AddFile` adds once the file is open: the sniffing error, or, by content type and
   * extension, the members of the archive or the file itself.
   */
  function OpenedOutcome(s: FileState, directory: string, refusal: Option<Error>, lib: Library): (o: Outcome)
  {
    if SniffError(s).Some? then Outcome([], SniffError(s))
    else match AddFileTreatment(lib.detect(Probe(s.Remaining())), Ext(s.name))
      case AsArchive => TarOutcome(s, refusal, lib)
      case AsPlainFile => FileOutcome(s, FileInfo(BaseName(s.name), |s.data|), directory, refusal)
  }

  /**
   * The switch of `AddFile`, once the file is open and its content type ct known: an archive is
   * opened a second time and its members copied, the `OpenTarFile` and `AddTarFromWriter` calls
   * that make up `AddTar`; anything else is added as one file through
   * the handle already open, which is closed only when that succeeded.
   */
  method AddSniffed(tw: TarWriter, fs: FileSystem, file: Handle, fi: FileInfo, ct: string, directory: string, lib: Library)
    returns (err: Option<Error>)
    requires file.name in fs.files && file.node == fs.files[file.name] && fs.OpenRefusal(file.name).None?
    requires file.State() == Snapshot(fs, file.name)
    requires file !in tw.Footprint() && file.node !in tw.Footprint()
    modifies tw`records, tw`err, tw.Footprint(), file`pos, file`closes
    ensures var s := old(file.State());
            var o := match AddFileTreatment(ct, Ext(file.name))
                     case AsArchive => TarOutcome(s, old(tw.Refusal()), lib)
                     case AsPlainFile => FileOutcome(s, fi, directory, old(tw.Refusal()));
            tw.records == old(tw.records) + o.records && err == o.err
    ensures AddFileTreatment(ct, Ext(file.name)) == AsArchive ==> file.closes == old(file.closes)
    ensures tw.Refusal() == old(tw.Refusal())
    ensures old(tw.Tracks()) ==> tw.Tracks()
  {
    match AddFileTreatment(ct, Ext(file.name))
    case AsArchive =>
      err := AddTar(tw, fs, file.name, lib);
    case AsPlainFile =>
      err := AddFileFromBuffer(tw, file, fi, directory);
  }

  /** `ReadContentType` on a file apart from the tar writer, which it leaves as it was. */
  method SniffApart(tw: TarWriter, file: Handle, lib: Library) returns (ct: string, err: Option<Error>)
    requires file !in tw.Footprint()
    modifies file`pos, file`closes
    ensures err == old(SniffError(file.State()))
    ensures err.None? ==> ct == lib.detect(Probe(old(file.Remaining()))) && file.pos == 0 && file.closes == old(file.closes)
    ensures tw.Refusal() == old(tw.Refusal()) && (old(tw.Tracks()) ==> tw.Tracks())
  {
    ct, err := ReadContentType(file, lib);
  }

  /** `AddFile` past `os.Open`: sniff the file, then take the branch its type and name select. */
  method AddOpened(tw: TarWriter, fs: FileSystem, file: Handle, fi: FileInfo, directory: string, lib: Library)
    returns (err: Option<Error>)
    requires file.name in fs.files && file.node == fs.files[file.name] && fs.OpenRefusal(file.name).None?
    requires file.State() == Snapshot(fs, file.name) && fi == FileInfo(BaseName(file.name), |file.node.data|)
    requires file !in tw.Footprint() && file.node !in tw.Footprint()
    modifies tw`records, tw`err, tw.Footprint(), file`pos, file`closes
    ensures var o := OpenedOutcome(old(file.State()), directory, old(tw.Refusal()), lib);
            tw.records == old(tw.records) + o.records && err == o.err
    ensures SniffError(old(file.State())).None? &&
            (AddFileTreatment(lib.detect(Probe(old(file.node.data))), Ext(file.name)) == AsArchive) ==>
              file.closes == old(file.closes)
    ensures tw.Refusal() == old(tw.Refusal())
    ensures old(tw.Tracks()) ==> tw.Tracks()
  {
    ghost var s, r0, rs := file.State(), tw.Refusal(), tw.records;
    ghost var o := OpenedOutcome(s, directory, r0, lib);
    assert s.Remaining() == file.node.data;
    var ct;
    ct, err := SniffApart(tw, file, lib);
    if err.Some? {
      assert o == Outcome([], err);
      return;
    }
    assert file.State() == s && tw.Refusal() == r0 && tw.records == rs;
    assert ct == lib.detect(Probe(s.data));
    SniffedOutcome(s, directory, r0, lib, ct, fi);
    err := AddSniffed(tw, fs, file, fi, ct, directory, lib);
    assert tw.records == rs + o.records && err == o.err;
  }

  /** Past sniffing, `OpenedOutcome` is the archive or the plain-file outcome. */
  lemma SniffedOutcome(s: FileState, directory: string, refusal: Option<Error>, lib: Library, ct: string, fi: FileInfo)
    requires SniffError(s).None?
    requires ct == lib.detect(Probe(s.Remaining())) && fi == FileInfo(BaseName(s.name), |s.data|)
    ensures OpenedOutcome(s, directory, refusal, lib) ==
              match AddFileTreatment(ct, Ext(s.name))
              case AsArchive => TarOutcome(s, refusal, lib)
              case AsPlainFile => FileOutcome(s, fi, directory, refusal)
  {
  }

  /**
   * `AddFile` past a successful `os.Stat`: `os.Open` the path, sniff it, then add it as an
   * archive or as one plain file. probe is the handle opened for sniffing.
   */
  method AddExisting(tw: TarWriter, fs: FileSystem, pth: string, directory: string, lib: Library)
    returns (err: Option<Error>, ghost probe: Handle?)
    requires fs.StatRefusal(pth).None? && fs.files[pth] !in tw.Footprint()
    modifies tw`records, tw`err, tw.Footprint()
    ensures var o := OpenedOutcome(old(Snapshot(fs, pth)), directory, old(tw.Refusal()), lib);
            tw.records == old(tw.records) + (if old(fs.OpenRefusal(pth)).Some? then [] else o.records) &&
            err == if old(fs.OpenRefusal(pth)).Some? then old(fs.OpenRefusal(pth)) else o.err
    ensures probe != null ==> fresh(probe) && probe.name == pth && probe.node == old(fs.files[pth])
    ensures probe != null && SniffError(old(Snapshot(fs, pth))).None? &&
            (AddFileTreatment(lib.detect(Probe(old(fs.files[pth].data))), Ext(pth)) == AsArchive) ==>
              probe.closes == 0
    ensures tw.Refusal() == old(tw.Refusal())
    ensures old(tw.Tracks()) ==> tw.Tracks()
  {
    ghost var fp := tw.Footprint();
    probe := null;
    var fi := fs.Stat(pth);
    var file;
    file, err := fs.Open(pth);
    if err.Some? {
      return;
    }
    assert file !in fp;
    probe := file;
    err := AddOpened(tw, fs, file, fi, directory, lib);
  }

  /**
   * `AddFile`: `os.Stat` and `os.Open` the path, sniff it, then add it as an archive or as one
   * plain file. probe is the handle opened for sniffing: the archive branch never closes it.
   */
  method AddFile(tw: TarWriter, fs: FileSystem, pth: string, directory: string, lib: Library)
    returns (err: Option<Error>, ghost probe: Handle?)
    requires pth in fs.files ==> fs.files[pth] !in tw.Footprint()
    modifies tw`records, tw`err, tw.Footprint()
    ensures old(pth == "" || pth !in fs.files) ==>
              err == Some(PathError(OpStat, pth, Missing)) && tw.records == old(tw.records) && probe == null
    ensures old(pth != "" && pth in fs.files) ==>
              var o := AddFileOutcome(old(Snapshot(fs, pth)), directory, old(tw.Refusal()), lib);
              tw.records == old(tw.records) + o.records && err == o.err
    ensures probe != null ==> fresh(probe) && probe.name == pth && old(pth in fs.files) && probe.node == old(fs.files[pth])
    ensures probe != null && SniffError(old(Snapshot(fs, pth))).None? &&
            (AddFileTreatment(lib.detect(Probe(old(fs.files[pth].data))), Ext(pth)) == AsArchive) ==>
              probe.closes == 0
    ensures tw.Refusal() == old(tw.Refusal())
    ensures old(tw.Tracks()) ==> tw.Tracks()
  {
    probe := null;
    err := fs.StatRefusal(pth);
    if err.Some? {
      return;
    }
    err, probe := AddExisting(tw, fs, pth, directory, lib);
  }
}
