/**
 * The writers the commands stack on their output: an optional compressor, and the tar writer
 * on top of it or directly on the output file.
 */
module Writers {
  import opened Base
  import opened Archive
  import opened Files

  /**
   * A compressing writer (`xz.NewWriter`, or `gzip.NewWriterLevel` at best compression) over a
   * file that held base with its cursor at at. Its stream header goes to the file at the first
   * write or close, unless it already went there when the compressor was made (xz); started
   * says that it has. A failed header write is kept as fault, which every later write and the
   * close report. It holds what it is given and writes the rest of the stream when it is
   * closed; closing it does not close the file.
   */
  class Compressor {
    const codec: Codec
    const dst: Handle
    const lib: Library
    ghost const base: seq<byte>
    ghost const at: nat
    var started: bool
    var fault: Option<Error>
    var pending: seq<byte>
    var closes: nat

    constructor (codec: Codec, dst: Handle, lib: Library, started: bool, ghost base: seq<byte>, ghost at: nat)
      ensures this.codec == codec && this.dst == dst && this.lib == lib
      ensures this.started == started && this.base == base && this.at == at
      ensures fault == None && pending == [] && closes == 0
    {
      this.codec := codec;
      this.dst := dst;
      this.lib := lib;
      this.started := started;
      this.base := base;
      this.at := at;
      fault := None;
      pending := [];
      closes := 0;
    }

    /**
     * The file holds the stream header over base at at once it was written, and base as it was
     * before; a file that took the header still takes writes.
     */
    ghost predicate Valid()
      reads this, dst, dst.node
    {
      if started then
        dst.node.data == Overwrite(base, at, lib.preamble(codec)) && dst.pos == at + |lib.preamble(codec)| &&
        dst.Refusal(OpWrite).None?
      else dst.node.data == base && dst.pos == at
    }

    /** The error the next write returns: a close, a failed header write, or the file's refusal of the header still to come. */
    function Refusal(): (r: Option<Error>)
      reads this, dst
      ensures r.None? <==> closes == 0 && fault.None? && (started || dst.Refusal(OpWrite).None?)
    {
      if closes > 0 then Some(WriteAfterClose)
      else if fault.Some? then fault
      else if started then None
      else dst.Refusal(OpWrite)
    }

    /** Sends the stream header to the file unless it went already; a failed write is kept as fault. */
    method Start() returns (err: Option<Error>)
      requires closes == 0 && fault.None?
      modifies this`started, this`fault, dst`pos, dst.node`data
      ensures err == if old(started) then None else old(dst.Refusal(OpWrite))
      ensures started == (old(started) || err.None?) && fault == err
      ensures dst.Refusal(OpWrite) == old(dst.Refusal(OpWrite))
      ensures old(Valid()) ==> Valid()
      ensures old(started) || err.Some? ==> dst.node.data == old(dst.node.data) && dst.pos == old(dst.pos)
    {
      err := None;
      if !started {
        err := dst.Write(lib.preamble(codec));
        fault := err;
        started := err.None?;
      }
    }

    /** The first write sends the stream header to the file; a write is kept for the close, or fails and keeps nothing. */
    method Write(b: seq<byte>) returns (err: Option<Error>)
      modifies this`pending, this`started, this`fault, dst`pos, dst.node`data
      ensures err == old(Refusal()) && Refusal() == err
      ensures pending == if err.None? then old(pending) + b else old(pending)
      ensures started == (old(started) || err.None?)
      ensures old(Valid()) ==> Valid()
    {
      if closes > 0 {
        err := Some(WriteAfterClose);
      } else if fault.Some? {
        err := fault;
      } else {
        err := Start();
        if err.None? {
          pending := pending + b;
        }
      }
    }

    /**
     * `Close`: the first call writes the stream header if no write has, then the compressed
     * form of everything given to it, unless a header write failed.
     */
    method Close() returns (err: Option<Error>)
      modifies this`closes, this`started, this`fault, dst`pos, dst.node`data
      ensures closes == old(closes) + 1
      ensures old(closes) > 0 ==> err == Some(WriteAfterClose)
      ensures old(closes) == 0 ==> err == if old(fault).Some? then old(fault) else old(dst.Refusal(OpWrite))
      ensures old(closes) == 0 && err.None? && old(Valid()) ==>
                dst.node.data == Overwrite(base, at, lib.preamble(codec) + lib.deflate(codec, pending)) &&
                dst.pos == at + |lib.preamble(codec) + lib.deflate(codec, pending)|
      ensures old(closes) > 0 || err.Some? ==> dst.node.data == old(dst.node.data) && dst.pos == old(dst.pos)
    {
      if closes > 0 {
        err := Some(WriteAfterClose);
      } else if fault.Some? {
        err := fault;
      } else {
        ghost var valid := Valid();
        err := Start();
        if err.None? {
          err := dst.Write(lib.deflate(codec, pending));
          if valid {
            OverwriteTwice(base, at, lib.preamble(codec), lib.deflate(codec, pending));
          }
        }
      }
      closes := closes + 1;
    }
  }

  /** Where a tar writer sends its bytes. */
  datatype Sink = ToFile(file: Handle) | ToCompressor(comp: Compressor)

  /** What has reached a sink so far: the file's bytes and cursor, or what the compressor holds. */
  datatype View = FileView(data: seq<byte>, pos: nat) | PendingView(pending: seq<byte>)

  /** A sink seen as v, then as w, received exactly the bytes b in between. */
  ghost predicate Received(v: View, w: View, b: seq<byte>)
  {
    match v
    case FileView(d, p) => w == FileView(Overwrite(d, p, b), p + |b|)
    case PendingView(q) => w == PendingView(q + b)
  }

  lemma ReceivedNothing(v: View)
    ensures Received(v, v, [])
  {
    if v.PendingView? {
      assert v.pending + [] == v.pending;
    }
  }

  lemma ReceivedTwice(u: View, v: View, w: View, a: seq<byte>, b: seq<byte>)
    requires Received(u, v, a) && Received(v, w, b)
    ensures Received(u, w, a + b)
  {
    match u
    case FileView(d, p) => OverwriteTwice(d, p, a, b);
    case PendingView(q) => assert q + a + b == q + (a + b);
  }

  /**
   * `tar.Writer`: it logs the records it accepts, keeps its first error, and refuses everything
   * after Close. `start` is what the sink held when the writer was made, `primed` whether a
   * compressor sink had already written its stream header then, and `finished` records that the
   * end-of-archive marker went out.
   */
  class TarWriter {
    const sink: Sink
    const lib: Library
    var records: seq<Record>
    var err: Option<Error>
    var closed: bool
    ghost var start: View
    ghost var primed: bool
    ghost var finished: bool

    /** The objects a write through this writer changes. */
    ghost function Footprint(): set<object>
      reads this
    {
      match sink
      case ToFile(f) => {f, f.node}
      case ToCompressor(c) => {c, c.dst, c.dst.node}
    }

    ghost function View(): View
      reads this, Footprint()
    {
      match sink
      case ToFile(f) => FileView(f.node.data, f.pos)
      case ToCompressor(c) => PendingView(c.pending)
    }

    /** Everything this writer has sent to its sink: its records, then the marker once it is out. */
    ghost function Emitted(): seq<byte>
      reads this
    {
      if finished then TarBytes(lib, records) + Trailer() else TarBytes(lib, records)
    }

    /**
     * The sink received exactly what this writer emitted since it was made; it accepts writes if
     * it took any record, and the writer's first error is its refusal. A compressor sink's file
     * holds the stream header exactly when it was there at the start or something went out.
     */
    ghost predicate Tracks()
      reads this, Footprint()
    {
      (finished ==> closed) && Received(start, View(), Emitted()) &&
      (records != [] ==> SinkRefusal().None?) && (err.Some? ==> err == SinkRefusal()) &&
      (sink.ToCompressor? ==> sink.comp.Valid() && (sink.comp.started <==> primed || records != [] || finished))
    }

    constructor (sink: Sink, lib: Library)
      requires sink.ToCompressor? ==> sink.comp.Valid()
      ensures this.sink == sink && this.lib == lib
      ensures records == [] && err == None && !closed
      ensures start == View() && (sink.ToCompressor? ==> primed == sink.comp.started) && !finished && Tracks()
    {
      this.sink := sink;
      this.lib := lib;
      records := [];
      err := None;
      closed := false;
      finished := false;
      new;
      start := View();
      primed := if sink.ToCompressor? then sink.comp.started else false;
      ReceivedNothing(start);
    }

    /** The error the sink answers a write with, if any. */
    function SinkRefusal(): Option<Error>
      reads this, Footprint()
    {
      match sink
      case ToFile(f) => f.Refusal(OpWrite)
      case ToCompressor(c) => c.Refusal()
    }

    /** The error the next write through this writer returns, if any. */
    function Refusal(): (r: Option<Error>)
      reads this, Footprint()
      ensures r.None? <==> !closed && err.None? && SinkRefusal().None?
    {
      if closed then Some(WriteAfterClose) else if err.Some? then err else SinkRefusal()
    }

    /** Sends b to the sink. */
    method Emit(b: seq<byte>) returns (e: Option<Error>)
      modifies Footprint()
      ensures e == old(SinkRefusal())
      ensures SinkRefusal() == old(SinkRefusal())
      ensures e.None? ==> Received(old(View()), View(), b)
      ensures e.Some? ==> View() == old(View())
      ensures sink.ToCompressor? ==>
                (old(sink.comp.Valid()) ==> sink.comp.Valid()) && sink.comp.started == (old(sink.comp.started) || e.None?)
    {
      match sink
      case ToFile(f) =>
        e := f.Write(b);
      case ToCompressor(c) =>
        e := c.Write(b);
    }

    /** `WriteHeader` (for a header) or `Write` (for a body): the record's bytes go to the sink, or the first error stays. */
    method Put(r: Record) returns (e: Option<Error>)
      modifies this`err, Footprint()
      ensures e == old(Refusal())
      ensures e.None? ==> Received(old(View()), View(), RecordBytes(lib, r))
      ensures e.Some? ==> View() == old(View())
      ensures SinkRefusal() == old(SinkRefusal()) && Refusal() == e
      ensures err == if old(Refusal()).Some? then old(err) else e
      ensures sink.ToCompressor? ==>
                (old(sink.comp.Valid()) ==> sink.comp.Valid()) && sink.comp.started == (old(sink.comp.started) || e.None?)
    {
      e := Refusal();
      if e.None? {
        e := Emit(RecordBytes(lib, r));
        err := e;
      }
    }

    /** `WriteHeader` / `Write`: the record is logged when it was accepted, and the sink keeps up with the log. */
    method Write(r: Record) returns (e: Option<Error>)
      modifies this`records, this`err, Footprint()
      ensures e == old(Refusal())
      ensures records == old(records) + (if e.None? then [r] else [])
      ensures Refusal() == e
      ensures old(Tracks()) ==> Tracks()
    {
      ghost var v, tracked, before := View(), Tracks(), records;
      e := Put(r);
      if e.None? {
        records := records + [r];
        if tracked {
          TarBytesSnoc(lib, before, r);
          ReceivedTwice(start, v, View(), TarBytes(lib, before), RecordBytes(lib, r));
        }
      }
    }

    /**
     * The error Close returns, if any: none after an earlier Close, else the first error, else
     * "missed writing" when the last body is shorter than its header declared, else the sink's.
     */
    function CloseError(): (r: Option<Error>)
      reads this, Footprint()
      ensures r.None? <==> closed || (err.None? && Owed(records) == 0 && SinkRefusal().None?)
      ensures !closed && err.None? && Owed(records) > 0 ==> r == Some(MissedWriting(Owed(records)))
    {
      if closed then None
      else if err.Some? then err
      else if Owed(records) > 0 then Some(MissedWriting(Owed(records)))
      else SinkRefusal()
    }

    /**
     * `Close`: flushes, then writes the end-of-archive marker, unless an earlier error stays; a
     * body left short fails the flush. A second Close does nothing.
     */
    method Close() returns (e: Option<Error>)
      modifies this`err, this`closed, this`finished, Footprint()
      ensures e == old(CloseError())
      ensures closed == (old(closed) || old(err).None?)
      ensures finished == (old(finished) || (!old(closed) && e.None?))
      ensures records == old(records)
      ensures SinkRefusal() == old(SinkRefusal())
      ensures old(Tracks()) ==> Tracks()
    {
      if closed {
        e := None;
      } else if err.Some? {
        e := err;
      } else if Owed(records) > 0 {
        e := Some(MissedWriting(Owed(records)));
        closed := true;
      } else {
        e := Seal();
      }
    }

    /** The last step of a clean Close: the end-of-archive marker goes to the sink, and the writer is closed. */
    method Seal() returns (e: Option<Error>)
      requires !closed
      modifies this`closed, this`finished, Footprint()
      ensures e == old(SinkRefusal()) && SinkRefusal() == e
      ensures closed && finished == (old(finished) || e.None?)
      ensures old(Tracks()) ==> Tracks()
    {
      ghost var v, tracked := View(), Tracks();
      e := Emit(Trailer());
      closed := true;
      if e.None? {
        finished := true;
        if tracked {
          ReceivedTwice(start, v, View(), TarBytes(lib, records), Trailer());
        }
      }
    }
  }
}
