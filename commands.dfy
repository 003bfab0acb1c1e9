/**
 * The three commands of cmd/: `add` (cmd/add.go), `merge` (cmd/merge.go) and `append`
 * (cmd/append.go), each over a file system, the standard input and output handles, its flag
 * values and the codec library. Cobra's flag parsing is left out: the flag values are parameters.
 *
 * What a command writes is first stated as a function of the files it reads (the `...Run` and
 * `...Outcome` functions), then each command is proved to write exactly that.
 */
module Commands {
  import opened Base
  import opened Paths
  import opened Archive
  import opened Files
  import opened Writers
  import opened Tables
  import opened Transfer
  import opened Utils

  /** How a command adds a positional argument: `AddFile` under a directory (`add`, `append`), or `AddTar` (`merge`). */
  datatype Adding = ByFile(directory: string) | ByArchive

  /** The files of a directory by path, as `os.Open` would give them; the empty path names no file. */
  ghost function Listing(fs: FileSystem): map<string, FileState>
    reads fs, fs.files.Values
  {
    map p | p in fs.files && p != "" :: Snapshot(fs, p)
  }

  /** The listing l shows path v as the directory now holds it. */
  ghost predicate Shows(fs: FileSystem, l: map<string, FileState>, v: string)
    reads fs, if v in fs.files then {fs.files[v]} else {}
  {
    (v in l <==> v != "" && v in fs.files) && (v in l ==> v in fs.files && l[v] == Snapshot(fs, v))
  }

  /** What one positional argument adds to a writer whose writes meet refusal, and the error it ends with. */
  function SourceOutcome(l: map<string, FileState>, v: string, how: Adding, refusal: Option<Error>, lib: Library): Outcome
  {
    if v !in l then Outcome([], Some(PathError(if how.ByFile? then OpStat else OpOpen, v, Missing)))
    else match how
      case ByFile(directory) => AddFileOutcome(l[v], directory, refusal, lib)
      case ByArchive =>
        if l[v].Refusal(OpOpen).Some? then Outcome([], l[v].Refusal(OpOpen)) else TarOutcome(l[v], refusal, lib)
  }

  /** A source's error as the commands report it: "failed to merge <name>: <error>". */
  function Labelled(o: Outcome, name: string): (r: Outcome)
    ensures r.records == o.records && (r.err.None? <==> o.err.None?)
  {
    if o.err.Some? then Outcome(o.records, Some(MergeFailed(name, o.err.value))) else o
  }

  /** What each positional argument adds, for a listing l, an adding mode and a writer whose writes meet refusal. */
  function Each(l: map<string, FileState>, how: Adding, refusal: Option<Error>, lib: Library): string -> Outcome
  {
    v => SourceOutcome(l, v, how, refusal, lib)
  }

  /** The loop over the positional arguments: each source in turn, until one fails. */
  function Sources(args: seq<string>, each: string -> Outcome): Outcome
  {
    if args == [] then Outcome([], None)
    else
      var a := Labelled(each(args[0]), args[0]);
      if a.err.Some? then a
      else
        var rest := Sources(args[1..], each);
        Outcome(a.records + rest.records, rest.err)
  }

  /** One argument handled: what it adds, and where the loop goes next. */
  lemma SourcesAdvance(o: Outcome, written: seq<Record>, args: seq<string>, each: string -> Outcome)
    requires args != [] && Resumes(o, written, Sources(args, each))
    ensures var a := Labelled(each(args[0]), args[0]);
            (a.err.Some? ==> o == Outcome(written + a.records, a.err)) &&
            (a.err.None? ==> Resumes(o, written + a.records, Sources(args[1..], each)))
  {
    var a := Labelled(each(args[0]), args[0]);
    if a.err.None? {
      AppendAssoc(written, a.records, Sources(args[1..], each).records);
    }
  }

  /**
   * The loop succeeds exactly when every argument does; otherwise its error names the first
   * argument that failed, with that argument's own error, and nothing after it was tried.
   */
  lemma {:induction false} SourcesStopAtFirstFailure(args: seq<string>, each: string -> Outcome)
    ensures Sources(args, each).err.None? <==> forall k :: 0 <= k < |args| ==> each(args[k]).err.None?
    ensures Sources(args, each).err.Some? ==>
              exists k :: 0 <= k < |args| && (forall j :: 0 <= j < k ==> each(args[j]).err.None?) &&
                          each(args[k]).err.Some? && Sources(args, each).err == Some(MergeFailed(args[k], each(args[k]).err.value))
  {
    if args != [] {
      if each(args[0]).err.None? {
        var rest := args[1..];
        SourcesStopAtFirstFailure(rest, each);
        if forall k :: 0 <= k < |rest| ==> each(rest[k]).err.None? {
          forall k | 0 <= k < |args| ensures each(args[k]).err.None? {
            if k > 0 { assert args[k] == rest[k - 1]; }
          }
        } else {
          var k :| 0 <= k < |rest| && each(rest[k]).err.Some?;
          assert rest[k] == args[k + 1];
        }
        if Sources(args, each).err.Some? {
          var k :| 0 <= k < |rest| && (forall j :: 0 <= j < k ==> each(rest[j]).err.None?) &&
                   each(rest[k]).err.Some? && Sources(rest, each).err == Some(MergeFailed(rest[k], each(rest[k]).err.value));
          forall j | 0 <= j < k + 1 ensures each(args[j]).err.None? {
            if j > 0 { assert args[j] == rest[j - 1]; }
          }
          assert rest[k] == args[k + 1];
        }
      }
    }
  }

  /** When every argument adds one whole member, the loop writes those members in argument order. */
  lemma {:induction false} SourcesInOrder(args: seq<string>, each: string -> Outcome, ms: seq<Member>)
    requires |ms| == |args|
    requires forall k :: 0 <= k < |args| ==> each(args[k]) == Outcome(Records(ms[k]), None)
    ensures Sources(args, each) == Outcome(Flatten(ms), None)
  {
    if args != [] {
      SourcesInOrder(args[1..], each, ms[1..]);
    }
  }

  /** When every argument succeeds, the loop writes what each one gives, argument after argument. */
  lemma {:induction false} SourcesConcatenate(args: seq<string>, each: string -> Outcome, xs: seq<seq<Record>>)
    requires |xs| == |args|
    requires forall k :: 0 <= k < |args| ==> each(args[k]) == Outcome(xs[k], None)
    ensures Sources(args, each) == Outcome(Concat(xs), None)
  {
    if args != [] {
      forall k | 0 <= k < |args[1..]| ensures each(args[1..][k]) == Outcome(xs[1..][k], None) {
        assert args[1..][k] == args[k + 1];
      }
      SourcesConcatenate(args[1..], each, xs[1..]);
    }
  }

  /** A regular file the tool can open, read and close, and that it takes for a plain file rather than an archive. */
  predicate PlainFile(s: FileState, lib: Library)
  {
    s.pos == 0 && s.closes == 0 && s.data != [] &&
    OpStat !in s.faults && OpOpen !in s.faults && OpRead !in s.faults && OpSeek !in s.faults && OpClose !in s.faults &&
    AddFileTreatment(lib.detect(Probe(s.data)), Ext(s.name)) == AsPlainFile
  }

  /** The member `add` writes for a plain file: named after the file's base name alone, with its whole contents. */
  function PlainMember(s: FileState): Member
  {
    Member(Header(BaseName(s.name), |s.data|), s.data, None)
  }

  /**
   * A plain file becomes one member named after its base name, whatever the `--directory` flag
   * says, holding the whole file.
   */
  lemma {:induction false} PlainFileEntry(l: map<string, FileState>, v: string, directory: string, lib: Library)
    requires v in l && l[v].name == v && PlainFile(l[v], lib)
    ensures SourceOutcome(l, v, ByFile(directory), None, lib) == Outcome(Records(PlainMember(l[v])), None)
  {
    var s := l[v];
    assert s.Refusal(OpStat).None? && s.Refusal(OpOpen).None?;
    assert AddFileOutcome(s, directory, None, lib) == OpenedOutcome(s, directory, None, lib);
    assert s.Remaining() == s.data;
    assert s.Refusal(OpRead).None? && s.Refusal(OpSeek).None? && s.Refusal(OpClose).None?;
    assert SniffError(s).None?;
    var fi := FileInfo(BaseName(s.name), |s.data|);
    assert OpenedOutcome(s, directory, None, lib) == FileOutcome(s, fi, directory, None);
    assert FileOutcome(s, fi, directory, None).err.None?;
  }

  /** `add` over plain files writes one member per argument, in argument order, each holding its whole file. */
  lemma PlainFilesInOrder(l: map<string, FileState>, args: seq<string>, directory: string, lib: Library)
    requires forall v :: v in args ==> v in l && l[v].name == v && PlainFile(l[v], lib)
    ensures Sources(args, Each(l, ByFile(directory), None, lib)) ==
              Outcome(Flatten(seq(|args|, k requires 0 <= k < |args| && args[k] in l => PlainMember(l[args[k]]))), None)
  {
    var ms := seq(|args|, k requires 0 <= k < |args| && args[k] in l => PlainMember(l[args[k]]));
    forall k | 0 <= k < |args| ensures Each(l, ByFile(directory), None, lib)(args[k]) == Outcome(Records(ms[k]), None) {
      assert args[k] in args;
      PlainEach(l, args[k], directory, lib);
    }
    SourcesInOrder(args, Each(l, ByFile(directory), None, lib), ms);
  }

  lemma PlainEach(l: map<string, FileState>, v: string, directory: string, lib: Library)
    requires v in l && l[v].name == v && PlainFile(l[v], lib)
    ensures Each(l, ByFile(directory), None, lib)(v) == Outcome(Records(PlainMember(l[v])), None)
  {
    PlainFileEntry(l, v, directory, lib);
  }

  /** A file in the listing that `merge` opens, decodes as c to the members of raw with none cut short, and closes. */
  predicate WholeArchive(l: map<string, FileState>, v: string, lib: Library, c: Codec, raw: seq<byte>)
  {
    v in l && l[v].Refusal(OpOpen).None? && l[v].Refusal(OpClose).None? &&
    ReaderOutcome(l[v], "", lib) == Ready(c, raw) &&
    EntryStream(lib, c, raw).end.Eof? && Intact(EntryStream(lib, c, raw).members)
  }

  /** A readable archive whose members all arrive whole gives `merge` exactly those members. */
  lemma {:induction false} ArchiveEntries(l: map<string, FileState>, v: string, lib: Library, c: Codec, raw: seq<byte>)
    requires WholeArchive(l, v, lib, c, raw)
    ensures Each(l, ByArchive, None, lib)(v) == Outcome(Flatten(EntryStream(lib, c, raw).members), None)
  {
    var st := EntryStream(lib, c, raw);
    DrainWritesAPrefix(st.members, st.end, None);
    assert SourceOutcome(l, v, ByArchive, None, lib) == Outcome(Flatten(st.members), None);
  }

  /**
   * The error a command ends with: its sources' error, else what closing the tar writer reports
   * (w, or "missed writing" when the last body written is short), reported as a close failure.
   */
  function Finished(o: Outcome, w: Option<Error>): (e: Option<Error>)
    ensures e.None? <==> o.err.None? && w.None? && Owed(o.records) == 0
    ensures o.err.None? && w.None? && Owed(o.records) > 0 ==> e == Some(CloseFailed(MissedWriting(Owed(o.records))))
  {
    if o.err.Some? then o.err
    else if w.Some? then Some(CloseFailed(w.value))
    else if Owed(o.records) > 0 then Some(CloseFailed(MissedWriting(Owed(o.records))))
    else None
  }

  /** The bytes that reach the output file for an archive b: b itself, or the compressor's stream header and its compressed form. */
  function Encoded(codec: Option<Codec>, lib: Library, b: seq<byte>): seq<byte>
  {
    match codec
    case None => b
    case Some(c) => lib.preamble(c) + lib.deflate(c, b)
  }

  /** What `add` reads after its arguments: the `--input` path, else the archive on standard input (None: no standard input). */
  function AddInputOutcome(l: map<string, FileState>, input: string, stdin: Option<FileState>, inputformat: string,
                           directory: string, refusal: Option<Error>, lib: Library): Outcome
  {
    if input != "" then Labelled(SourceOutcome(l, input, ByFile(directory), refusal, lib), input)
    else match stdin
      case None => Outcome([], Some(MergeFailed(input, NilInput)))
      case Some(s) =>
        match ReaderOutcome(s, inputformat, lib)
        case Failed(e, _) => Outcome([], Some(MergeFailed(input, e)))
        case Ready(c, raw) =>
          var st := EntryStream(lib, c, raw);
          var d := DrainSwallowing(st.members, st.end, refusal);
          Labelled(Outcome(d.records, if d.err.Some? then d.err else s.Refusal(OpClose)), "stdin")
  }

  /** What `add` writes before closing: its arguments, then its input. */
  function AddRun(l: map<string, FileState>, args: seq<string>, input: string, stdin: Option<FileState>, inputformat: string,
                  directory: string, refusal: Option<Error>, lib: Library): Outcome
  {
    var a := Sources(args, Each(l, ByFile(directory), refusal, lib));
    if a.err.Some? then a
    else
      var b := AddInputOutcome(l, input, stdin, inputformat, directory, refusal, lib);
      Outcome(a.records + b.records, b.err)
  }

  /** A failure to open standard input, as `merge` treats it: skipped when its text says "empty". */
  function StdinFailure(e: Error): (o: Outcome)
    ensures o.records == [] && (o.err.None? <==> SkipsStdin(e))
  {
    if SkipsStdin(e) then Outcome([], None) else Outcome([], Some(MergeFailed("input", e)))
  }

  /** What `merge` takes from standard input (None: there is none). */
  function MergeInputOutcome(stdin: Option<FileState>, inputformat: string, refusal: Option<Error>, lib: Library): Outcome
  {
    match stdin
    case None => StdinFailure(NilInput)
    case Some(s) =>
      match ReaderOutcome(s, inputformat, lib)
      case Failed(e, _) => StdinFailure(e)
      case Ready(c, raw) =>
        var st := EntryStream(lib, c, raw);
        var d := Drain(st.members, st.end, refusal);
        Labelled(Outcome(d.records, if d.err.Some? then d.err else s.Refusal(OpClose)), "input")
  }

  /** What `merge` writes before closing: standard input, then its arguments. */
  function MergeRun(l: map<string, FileState>, args: seq<string>, stdin: Option<FileState>, inputformat: string,
                    refusal: Option<Error>, lib: Library): Outcome
  {
    var b := MergeInputOutcome(stdin, inputformat, refusal, lib);
    if b.err.Some? then b
    else
      var a := Sources(args, Each(l, ByArchive, refusal, lib));
      Outcome(b.records + a.records, a.err)
  }

  /**
   * `merge` skips standard input only when there is none: standard input at its end, sniffed
   * for want of a format hint, is `io.EOF`, which stops the command.
   */
  lemma {:induction false} MergeSkipsOnlyMissingStdin(s: FileState, refusal: Option<Error>, lib: Library)
    requires s.Refusal(OpStat).None? && s.Refusal(OpRead).None? && s.Remaining() == []
    ensures MergeInputOutcome(None, "", refusal, lib) == Outcome([], None)
    ensures MergeInputOutcome(Some(s), "", refusal, lib) == Outcome([], Some(MergeFailed("input", EndOfFile)))
  {
    NilInputIsSkipped();
    EndOfFileIsNotSkipped();
    DrainedInputIsEndOfFile(s, lib);
  }

  /**
   * The promise of `merge`: with no standard input and a writer that accepts, two readable
   * archives whose members all arrive whole merge into the first archive's members followed by
   * the second's. The output's bytes are the two archives' member bytes, each without its end
   * marker; a tar reader that reads back what the writer wrote sees exactly those members.
   */
  lemma {:induction false} MergeJoinsArchives(l: map<string, FileState>, a: string, b: string, inputformat: string, lib: Library,
                                              ca: Codec, ra: seq<byte>, cb: Codec, rb: seq<byte>)
    requires WholeArchive(l, a, lib, ca, ra) && WholeArchive(l, b, lib, cb, rb)
    ensures var ma, mb := EntryStream(lib, ca, ra).members, EntryStream(lib, cb, rb).members;
            var o := MergeRun(l, [a, b], None, inputformat, None, lib);
            o == Outcome(Flatten(ma + mb), None) &&
            TarBytes(lib, o.records) == TarBytes(lib, Flatten(ma)) + TarBytes(lib, Flatten(mb)) &&
            (RoundTrips(lib) && Sized(ma) && Sized(mb) ==> lib.parse(TarBytes(lib, o.records) + Trailer()) == Stream(ma + mb, Eof))
  {
    var ma, mb := EntryStream(lib, ca, ra).members, EntryStream(lib, cb, rb).members;
    ArchiveEntries(l, a, lib, ca, ra);
    ArchiveEntries(l, b, lib, cb, rb);
    MergeOfTwo(l, a, b, inputformat, lib, Flatten(ma), Flatten(mb));
    FlattenAppend(ma, mb);
    TarBytesAppend(lib, Flatten(ma), Flatten(mb));
    IntactJoin(ma, mb);
    if Sized(ma) && Sized(mb) {
      SizedJoin(ma, mb);
    }
  }

  /**
   * The promise of `merge` for any number of arguments: with no standard input and a writer that
   * accepts, readable archives whose members all arrive whole (archive k decoding as cs[k] to the
   * members mss[k]) merge into all their members, archive after archive. The output's bytes are
   * each archive's member bytes in turn; a tar reader that reads back what the writer wrote sees
   * exactly those members.
   */
  lemma {:induction false} MergeJoinsAllArchives(l: map<string, FileState>, args: seq<string>, inputformat: string, lib: Library,
                                                 cs: seq<Codec>, raws: seq<seq<byte>>, mss: seq<seq<Member>>)
    requires |cs| == |args| && |raws| == |args| && |mss| == |args|
    requires forall k :: 0 <= k < |args| ==>
               WholeArchive(l, args[k], lib, cs[k], raws[k]) && mss[k] == EntryStream(lib, cs[k], raws[k]).members
    ensures var o := MergeRun(l, args, None, inputformat, None, lib);
            o == Outcome(Flatten(Concat(mss)), None) &&
            TarBytes(lib, o.records) == Concat(seq(|mss|, k requires 0 <= k < |mss| => TarBytes(lib, Flatten(mss[k])))) &&
            (RoundTrips(lib) && (forall k :: 0 <= k < |mss| ==> Sized(mss[k])) ==>
               lib.parse(TarBytes(lib, o.records) + Trailer()) == Stream(Concat(mss), Eof))
  {
    var each := Each(l, ByArchive, None, lib);
    var xs := seq(|mss|, k requires 0 <= k < |mss| => Flatten(mss[k]));
    forall k | 0 <= k < |args| ensures each(args[k]) == Outcome(xs[k], None) {
      ArchiveEntries(l, args[k], lib, cs[k], raws[k]);
    }
    SourcesConcatenate(args, each, xs);
    MergeWithoutStdin(l, args, inputformat, None, lib);
    FlattenConcat(mss);
    TarBytesConcat(lib, xs);
    assert seq(|xs|, k requires 0 <= k < |xs| => TarBytes(lib, xs[k])) ==
           seq(|mss|, k requires 0 <= k < |mss| => TarBytes(lib, Flatten(mss[k])));
    IntactConcat(mss);
    if RoundTrips(lib) && (forall k :: 0 <= k < |mss| ==> Sized(mss[k])) {
      SizedConcat(mss);
      assert lib.parse(TarBytes(lib, Flatten(Concat(mss))) + Trailer()) == Stream(Concat(mss), Eof);
    }
  }

  /** Without standard input, two arguments that each succeed: `merge` writes the first's records, then the second's. */
  lemma MergeOfTwo(l: map<string, FileState>, a: string, b: string, inputformat: string, lib: Library, x: seq<Record>, y: seq<Record>)
    requires Each(l, ByArchive, None, lib)(a) == Outcome(x, None) && Each(l, ByArchive, None, lib)(b) == Outcome(y, None)
    ensures MergeRun(l, [a, b], None, inputformat, None, lib) == Outcome(x + y, None)
  {
    SourcesOfTwo(a, b, Each(l, ByArchive, None, lib), x, y);
    MergeWithoutStdin(l, [a, b], inputformat, None, lib);
  }

  /** Without standard input, `merge` writes exactly what its arguments give. */
  lemma MergeWithoutStdin(l: map<string, FileState>, args: seq<string>, inputformat: string, refusal: Option<Error>, lib: Library)
    ensures MergeRun(l, args, None, inputformat, refusal, lib) == Sources(args, Each(l, ByArchive, refusal, lib))
  {
    NilInputIsSkipped();
    var a := Sources(args, Each(l, ByArchive, refusal, lib));
    assert [] + a.records == a.records;
  }

  /** Two sources that each succeed: the loop writes the first's records, then the second's. */
  lemma SourcesOfTwo(a: string, b: string, each: string -> Outcome, x: seq<Record>, y: seq<Record>)
    requires each(a) == Outcome(x, None) && each(b) == Outcome(y, None)
    ensures Sources([a, b], each) == Outcome(x + y, None)
  {
    assert [b][1..] == [];
    assert Sources([b], each) == Outcome(y + [], None);
    assert [a, b][1..] == [b];
    assert y + [] == y;
  }

  /** The bytes of an archive whose end marker is overwritten by more records and a new marker. */
  lemma {:induction false} TrailerReplaced(a: seq<byte>, b: seq<byte>)
    ensures Overwrite(a + Trailer(), |a|, b + Trailer()) == a + b + Trailer()
  {
    var d := a + Trailer();
    assert d[..|a|] == a;
    assert Overwrite(d, |a|, b + Trailer()) == d[..|a|] + (b + Trailer()) + [];
  }

  /**
   * The promise of `append`: an uncompressed archive copied to an empty output, with the
   * cursor put 1024 bytes before its end, then the new members and a new end marker written
   * there, holds the old members' bytes, the new ones' and one end marker; a tar reader that
   * reads back what the writer wrote sees the old members followed by the new ones.
   */
  lemma {:induction false} AppendExtendsArchive(lib: Library, o: FileState, ms: seq<Member>, added: seq<Member>)
    requires o.data == [] && o.pos == 0 && o.closes == 0 && o.writable
    requires OpWrite !in o.faults && OpClose !in o.faults && OpSeek !in o.faults
    ensures var old_ := TarBytes(lib, Flatten(ms)) + Trailer();
            var r := CopiedOutcome(o, old_, None, None, -(TrailerSize as int));
            r.err.None? && r.reopened && r.cursor == |TarBytes(lib, Flatten(ms))| &&
            Overwrite(r.data, r.cursor, TarBytes(lib, Flatten(added)) + Trailer()) == TarBytes(lib, Flatten(ms + added)) + Trailer() &&
            (RoundTrips(lib) && Intact(ms) && Intact(added) && Sized(ms) && Sized(added) ==>
               lib.parse(Overwrite(r.data, r.cursor, TarBytes(lib, Flatten(added)) + Trailer())) == Stream(ms + added, Eof))
  {
    var a := TarBytes(lib, Flatten(ms));
    var b := TarBytes(lib, Flatten(added));
    SeekedWindow(o, a + Trailer(), TrailerSize);
    TrailerReplaced(a, b);
    FlattenAppend(ms, added);
    TarBytesAppend(lib, Flatten(ms), Flatten(added));
    if RoundTrips(lib) && Intact(ms) && Intact(added) && Sized(ms) && Sized(added) {
      IntactJoin(ms, added);
      SizedJoin(ms, added);
      assert lib.parse(TarBytes(lib, Flatten(ms + added)) + Trailer()) == Stream(ms + added, Eof);
    }
  }

  // ---------- Opening the output ----------

  /** The error the `--output` switch ends the command with, if any. */
  function OutputError(fs: FileSystem, output: string): (r: Option<Error>)
    reads fs
    ensures output == "" ==> r == Some(NoOutput)
    ensures output == "-" ==> r.None?
  {
    if output == "" then Some(NoOutput)
    else if output == "-" then None
    else match fs.CreateRefusal(output)
      case Some(e) => Some(OpenOutput(output, e))
      case None => None
  }

  /** The state the output handle has once the `--output` switch has opened it. */
  ghost function OutputState(fs: FileSystem, stdout: Handle, output: string): FileState
    reads fs, stdout, stdout.node
  {
    if output == "-" then stdout.State()
    else FileState(output, if output in fs.files then fs.files[output].faults else map[], true, [], 0, 0)
  }

  /** The `--output` switch of the three commands: "" is an error, "-" is standard output, any other path is created or truncated. */
  method OutputFile(fs: FileSystem, stdout: Handle, output: string) returns (out: Handle?, err: Option<Error>)
    modifies fs, fs.Target(output)
    ensures err == old(OutputError(fs, output))
    ensures err.Some? <==> out == null
    ensures err.Some? || output == "-" ==> fs.files == old(fs.files) && unchanged(old(fs.Target(output)))
    ensures output == "-" ==> out == stdout
    ensures out != null ==> out.State() == old(OutputState(fs, stdout, output))
    ensures out != null && output != "-" ==>
              fresh(out) && out.name == output && output in fs.files && out.node == fs.files[output] &&
              fs.files == old(fs.files)[output := out.node] &&
              (output in old(fs.files) ==> out.node == old(fs.files[output])) &&
              (output !in old(fs.files) ==> fresh(out.node))
  {
    if output == "" {
      return null, Some(NoOutput);
    } else if output == "-" {
      return stdout, None;
    }
    var e;
    out, e := fs.Create(output);
    if e.Some? {
      return null, Some(OpenOutput(output, e.value));
    }
    err := None;
  }

  /** Standard input is neither standard output nor the output file, and standard output's name, when the directory holds it, names its file. */
  ghost predicate Standard(fs: FileSystem, stdin: Handle?, stdout: Handle, output: string)
    reads fs, stdin
  {
    (stdin != null ==> stdin != stdout && stdin.node != stdout.node &&
                       (output != "-" && output in fs.files ==> stdin.node != fs.files[output])) &&
    (stdout.name in fs.files ==> fs.files[stdout.name] == stdout.node)
  }

  /** Path v is read while the output is written, so it must name neither the output nor its file. */
  ghost predicate Apart(fs: FileSystem, stdout: Handle, output: string, v: string)
    reads fs
  {
    (output != "-" ==> v != output && (v in fs.files && output in fs.files ==> fs.files[v] != fs.files[output])) &&
    (output == "-" ==> (v in fs.files ==> fs.files[v] != stdout.node))
  }

  // ---------- The writers ----------

  /**
   * The error making the compressor for codec returns on an output whose writes meet w:
   * `xz.NewWriter` writes its stream header at once and returns that write's error, while
   * `gzip.NewWriterLevel` writes nothing yet and cannot fail at best compression.
   */
  function NewWriterError(codec: Option<Codec>, w: Option<Error>): (e: Option<Error>)
    ensures e.Some? <==> codec == Some(Xz) && w.Some?
    ensures e.Some? ==> e == w
  {
    if codec == Some(Xz) then w else None
  }

  /**
   * The writers stacked on out: a compressor for codec, when there is one, then the tar writer.
   * An xz compressor writes its stream header to out at once and gives up with that write's
   * error; a gzip compressor writes nothing yet.
   */
  method NewWriters(out: Handle, codec: Option<Codec>, lib: Library) returns (tw: TarWriter?, comp: Compressor?, err: Option<Error>)
    modifies out`pos, out.node`data
    ensures err == NewWriterError(codec, old(out.Refusal(OpWrite)))
    ensures err.Some? <==> tw == null
    ensures codec != Some(Xz) || old(out.Refusal(OpWrite)).Some? ==> out.node.data == old(out.node.data) && out.pos == old(out.pos)
    ensures codec == Some(Xz) && old(out.Refusal(OpWrite)).None? ==>
              out.node.data == Overwrite(old(out.node.data), old(out.pos), lib.preamble(Xz)) &&
              out.pos == old(out.pos) + |lib.preamble(Xz)|
    ensures tw != null ==>
              fresh(tw) && tw.lib == lib && tw.records == [] && tw.err.None? && !tw.closed && tw.Tracks() &&
              tw.Refusal() == old(out.Refusal(OpWrite))
    ensures tw != null && codec.None? ==> comp == null && tw.sink == ToFile(out) && tw.start == FileView(out.node.data, out.pos)
    ensures tw != null && codec.Some? ==>
              comp != null && fresh(comp) && comp.codec == codec.value && comp.dst == out && comp.lib == lib &&
              comp.base == old(out.node.data) && comp.at == old(out.pos) && comp.started == (codec == Some(Xz)) &&
              comp.fault.None? && comp.closes == 0 &&
              tw.sink == ToCompressor(comp) && tw.start == PendingView([]) && tw.primed == comp.started
  {
    comp, err := null, None;
    match codec {
      case None =>
        tw := new TarWriter(ToFile(out), lib);
      case Some(c) =>
        ghost var d, p := out.node.data, out.pos;
        if c == Xz {
          var e := out.Write(lib.preamble(c));
          if e.Some? {
            return null, null, e;
          }
        }
        comp := new Compressor(c, out, lib, c == Xz, d, p);
        tw := new TarWriter(ToCompressor(comp), lib);
    }
  }

  /**
   * The end of a command: close the tar writer, then the compressor when the command holds one.
   * A failure is the tar writer's first error or its sink's refusal, else a short last body.
   * `merge` passes no compressor even when it made one; its file then holds the stream header
   * exactly when the compressor had written it when it was made, or took a record or the end
   * marker since.
   */
  method CloseWriters(tw: TarWriter, comp: Compressor?, ghost out: Handle) returns (err: Option<Error>)
    requires tw.Tracks() && !tw.closed
    requires tw.sink.ToFile? ==> tw.sink == ToFile(out) && comp == null
    requires tw.sink.ToCompressor? ==> tw.sink.comp.dst == out && tw.start == PendingView([])
    requires comp != null ==> tw.sink == ToCompressor(comp) && comp.lib == tw.lib
    modifies tw`err, tw`closed, tw`finished, tw.Footprint(), comp, out, out.node
    ensures var r := old(tw.Refusal());
            err == if r.Some? then Some(CloseFailed(r.value))
                   else if Owed(tw.records) > 0 then Some(CloseFailed(MissedWriting(Owed(tw.records))))
                   else None
    ensures err.None? && tw.sink.ToFile? ==>
              tw.start.FileView? && out.node.data == Overwrite(tw.start.data, tw.start.pos, TarBytes(tw.lib, tw.records) + Trailer())
    ensures err.None? && comp != null ==>
              out.node.data == Overwrite(comp.base, comp.at, tw.lib.preamble(comp.codec) + tw.lib.deflate(comp.codec, TarBytes(tw.lib, tw.records) + Trailer()))
    ensures tw.sink.ToCompressor? && comp == null ==>
              var c := tw.sink.comp;
              out.node.data == if tw.primed || tw.records != [] || err.None? then Overwrite(c.base, c.at, c.lib.preamble(c.codec)) else c.base
    ensures tw.records == old(tw.records)
  {
    ghost var r := tw.Refusal();
    var e := tw.Close();
    assert tw.Tracks();
    if e.Some? {
      return Some(CloseFailed(e.value));
    }
    if comp != null {
      assert comp.pending == [] + (TarBytes(tw.lib, tw.records) + Trailer());
      assert [] + (TarBytes(tw.lib, tw.records) + Trailer()) == TarBytes(tw.lib, tw.records) + Trailer();
      e := comp.Close();
      if e.Some? {
        assert false;
      }
    }
    err := None;
  }

  // ---------- The loops over the arguments ----------

  /** The files the paths name. */
  ghost function Inputs(fs: FileSystem, paths: seq<string>): set<object>
    reads fs
  {
    set v | v in paths && v in fs.files :: fs.files[v]
  }

  /** `AddFile` on one argument, as `Each` says. */
  method AddSource(tw: TarWriter, fs: FileSystem, v: string, directory: string, lib: Library, ghost l: map<string, FileState>)
    returns (err: Option<Error>)
    requires Shows(fs, l, v) && (v in fs.files ==> fs.files[v] !in tw.Footprint())
    modifies tw`records, tw`err, tw.Footprint()
    ensures var a := Each(l, ByFile(directory), old(tw.Refusal()), lib)(v);
            tw.records == old(tw.records) + a.records && err == a.err
    ensures tw.Refusal() == old(tw.Refusal())
    ensures old(tw.Tracks()) ==> tw.Tracks()
  {
    ghost var probe;
    err, probe := AddFile(tw, fs, v, directory, lib);
  }

  /** `add`'s and `append`'s loop: `AddFile` on each argument, stopping at the first failure. */
  method AddFiles(tw: TarWriter, fs: FileSystem, args: seq<string>, directory: string, lib: Library, ghost l: map<string, FileState>)
    returns (err: Option<Error>)
    requires forall v :: v in args ==> Shows(fs, l, v)
    requires Inputs(fs, args) !! tw.Footprint()
    modifies tw`records, tw`err, tw.Footprint()
    ensures var o := Sources(args, Each(l, ByFile(directory), old(tw.Refusal()), lib));
            tw.records == old(tw.records) + o.records && err == o.err
    ensures tw.Refusal() == old(tw.Refusal())
    ensures old(tw.Tracks()) ==> tw.Tracks()
  {
    ghost var r0, rec0 := tw.Refusal(), tw.records;
    ghost var each := Each(l, ByFile(directory), r0, lib);
    ghost var o := Sources(args, each);
    ghost var written: seq<Record> := [];
    var i := 0;
    while i < |args|
      invariant 0 <= i <= |args|
      invariant Resumes(o, written, Sources(args[i..], each))
      invariant tw.records == rec0 + written
      invariant tw.Refusal() == r0
      invariant old(tw.Tracks()) ==> tw.Tracks()
    {
      var v := args[i];
      assert args[i] in args;
      assert Shows(fs, l, v) by { assert old(Shows(fs, l, v)); }
      var e := AddSource(tw, fs, v, directory, lib, l);
      SourcesAdvance(o, written, args[i..], each);
      assert args[i..][1..] == args[i + 1..];
      AppendAssoc(rec0, written, Labelled(each(v), v).records);
      written := written + Labelled(each(v), v).records;
      if e.Some? {
        return Some(MergeFailed(v, e.value));
      }
      i := i + 1;
    }
    assert written + [] == written;
    err := None;
  }

  /** `AddTar` on one argument, as `Each` says. */
  method AddArchive(tw: TarWriter, fs: FileSystem, v: string, lib: Library, ghost l: map<string, FileState>)
    returns (err: Option<Error>)
    requires Shows(fs, l, v)
    modifies tw`records, tw`err, tw.Footprint()
    ensures var a := Each(l, ByArchive, old(tw.Refusal()), lib)(v);
            tw.records == old(tw.records) + a.records && err == a.err
    ensures tw.Refusal() == old(tw.Refusal())
    ensures old(tw.Tracks()) ==> tw.Tracks()
  {
    err := AddTar(tw, fs, v, lib);
  }

  /** `merge`'s loop: `AddTar` on each argument, stopping at the first failure. */
  method AddTars(tw: TarWriter, fs: FileSystem, args: seq<string>, lib: Library, ghost l: map<string, FileState>)
    returns (err: Option<Error>)
    requires forall v :: v in args ==> Shows(fs, l, v)
    requires Inputs(fs, args) !! tw.Footprint()
    modifies tw`records, tw`err, tw.Footprint()
    ensures var o := Sources(args, Each(l, ByArchive, old(tw.Refusal()), lib));
            tw.records == old(tw.records) + o.records && err == o.err
    ensures tw.Refusal() == old(tw.Refusal())
    ensures old(tw.Tracks()) ==> tw.Tracks()
  {
    ghost var r0, rec0 := tw.Refusal(), tw.records;
    ghost var each := Each(l, ByArchive, r0, lib);
    ghost var o := Sources(args, each);
    ghost var written: seq<Record> := [];
    var i := 0;
    while i < |args|
      invariant 0 <= i <= |args|
      invariant Resumes(o, written, Sources(args[i..], each))
      invariant tw.records == rec0 + written
      invariant tw.Refusal() == r0
      invariant old(tw.Tracks()) ==> tw.Tracks()
    {
      var v := args[i];
      assert args[i] in args;
      assert Shows(fs, l, v) by { assert old(Shows(fs, l, v)); }
      var e := AddArchive(tw, fs, v, lib, l);
      SourcesAdvance(o, written, args[i..], each);
      assert args[i..][1..] == args[i + 1..];
      AppendAssoc(rec0, written, Labelled(each(v), v).records);
      written := written + Labelled(each(v), v).records;
      if e.Some? {
        return Some(MergeFailed(v, e.value));
      }
      i := i + 1;
    }
    assert written + [] == written;
    err := None;
  }

  /** The state of standard input, when there is one. */
  ghost function StdinState(h: Handle?): Option<FileState>
    reads h, if h == null then {} else {h.node}
  {
    if h == null then None else Some(h.State())
  }

  /** The `--input` step of `add`: the named file, else the archive on standard input. */
  method AddInput(tw: TarWriter, fs: FileSystem, stdin: Handle?, input: string, inputformat: string, directory: string,
                  lib: Library, ghost l: map<string, FileState>) returns (err: Option<Error>)
    requires Shows(fs, l, input) && (input in fs.files ==> fs.files[input] !in tw.Footprint())
    requires stdin != null ==> stdin !in tw.Footprint()
    modifies tw`records, tw`err, tw.Footprint(), stdin
    ensures var o := AddInputOutcome(l, input, old(StdinState(stdin)), inputformat, directory, old(tw.Refusal()), lib);
            tw.records == old(tw.records) + o.records && err == o.err
    ensures tw.Refusal() == old(tw.Refusal())
    ensures old(tw.Tracks()) ==> tw.Tracks()
  {
    if input != "" {
      var e, probe := AddFile(tw, fs, input, directory, lib);
      err := if e.Some? then Some(MergeFailed(input, e.value)) else None;
      return;
    }
    ghost var si := StdinState(stdin);
    var tr, rc, e := OpenStdin(tw, stdin, inputformat, lib, si);
    if e.Some? {
      return Some(MergeFailed(input, e.value));
    }
    e := AddTarFromBuffer(tw, tr, rc);
    err := if e.Some? then Some(MergeFailed("stdin", e.value)) else None;
  }

  /** The error `GetReader` meets on standard input in state si, if any. */
  function StdinError(si: Option<FileState>, inputformat: string, lib: Library): Option<Error>
  {
    match si
    case None => Some(NilInput)
    case Some(s) =>
      match ReaderOutcome(s, inputformat, lib)
      case Failed(e, _) => Some(e)
      case Ready(_, _) => None
  }

  /**
   * `GetReader` on standard input, stated over the state standard input was in; the tar writer,
   * apart from standard input, is left as it was.
   */
  method OpenStdin(tw: TarWriter, stdin: Handle?, inputformat: string, lib: Library, ghost si: Option<FileState>)
    returns (tr: TarReader?, rc: Crdr?, err: Option<Error>)
    requires si == StdinState(stdin) && (stdin != null ==> stdin !in tw.Footprint())
    modifies stdin
    ensures tw.Refusal() == old(tw.Refusal()) && (old(tw.Tracks()) ==> tw.Tracks())
    ensures err == StdinError(si, inputformat, lib)
    ensures err.None? ==>
              var c := ReaderOutcome(si.value, inputformat, lib);
              c.Ready? && tr != null && rc != null && fresh(tr) && fresh(rc) && stdin != null && rc.fin == stdin &&
              stdin.Refusal(OpClose) == si.value.Refusal(OpClose) && tr.stream == EntryStream(lib, c.codec, c.raw) && tr.next == 0
  {
    tr, rc, err := GetReader(stdin, inputformat, lib);
  }

  /** Standard input that cannot be opened as an archive contributes only its error, or nothing. */
  lemma StdinFails(si: Option<FileState>, inputformat: string, refusal: Option<Error>, lib: Library)
    requires StdinError(si, inputformat, lib).Some?
    ensures MergeInputOutcome(si, inputformat, refusal, lib) == StdinFailure(StdinError(si, inputformat, lib).value)
  {
  }

  /** The standard-input step of `merge`: its members, or its error unless that error says "empty". */
  method MergeInput(tw: TarWriter, stdin: Handle?, inputformat: string, lib: Library,
                    ghost si: Option<FileState>, ghost r: Option<Error>) returns (err: Option<Error>, ghost o: Outcome)
    requires stdin != null ==> stdin !in tw.Footprint()
    requires si == StdinState(stdin) && r == tw.Refusal()
    modifies tw`records, tw`err, tw.Footprint(), stdin
    ensures o == MergeInputOutcome(si, inputformat, r, lib)
    ensures tw.records == old(tw.records) + o.records && err == o.err
    ensures tw.Refusal() == r
    ensures old(tw.Tracks()) ==> tw.Tracks()
  {
    o := MergeInputOutcome(si, inputformat, r, lib);
    var tr, rc, e := OpenStdin(tw, stdin, inputformat, lib, si);
    if e.Some? {
      StdinFails(si, inputformat, r, lib);
      err := if SkipsStdin(e.value) then None else Some(MergeFailed("input", e.value));
      return;
    }
    ghost var s := si.value;
    ghost var d := Drain(tr.Rest(), tr.stream.end, r);
    assert o == Labelled(Outcome(d.records, if d.err.Some? then d.err else s.Refusal(OpClose)), "input");
    e := AddTarFromWriter(tw, tr, rc);
    err := if e.Some? then Some(MergeFailed("input", e.value)) else None;
  }

  // ---------- The commands ----------

  /** What `add` writes through its tar writer: the arguments, then the `--input` file or standard input. */
  method AddAll(tw: TarWriter, fs: FileSystem, stdin: Handle?, args: seq<string>, input: string, inputformat: string,
                directory: string, lib: Library, ghost l: map<string, FileState>, ghost si: Option<FileState>, ghost r: Option<Error>)
    returns (err: Option<Error>, ghost o: Outcome)
    requires forall v :: v in args ==> Shows(fs, l, v)
    requires Shows(fs, l, input)
    requires Inputs(fs, args) !! tw.Footprint() && (input in fs.files ==> fs.files[input] !in tw.Footprint())
    requires stdin != null ==> stdin !in tw.Footprint() && stdin.node !in tw.Footprint()
    requires si == StdinState(stdin) && r == tw.Refusal() && tw.records == []
    modifies tw`records, tw`err, tw.Footprint(), stdin
    ensures o == AddRun(l, args, input, si, inputformat, directory, r, lib)
    ensures tw.records == o.records && err == o.err
    ensures tw.Refusal() == r && tw.start == old(tw.start)
    ensures old(tw.Tracks()) ==> tw.Tracks()
  {
    o := AddRun(l, args, input, si, inputformat, directory, r, lib);
    ghost var rec0 := tw.records;
    ghost var a := Sources(args, Each(l, ByFile(directory), r, lib));
    err := AddFiles(tw, fs, args, directory, lib, l);
    if err.Some? {
      return;
    }
    assert Shows(fs, l, input) && StdinState(stdin) == si;
    ghost var b := AddInputOutcome(l, input, si, inputformat, directory, r, lib);
    err := AddInput(tw, fs, stdin, input, inputformat, directory, lib, l);
    AppendAssoc(rec0, a.records, b.records);
    assert rec0 + (a.records + b.records) == a.records + b.records;
  }

  /**
   * The end of `add` and `append`: with writers made by `NewWriters` on an output that held d
   * with its cursor at p and whose writes meet w, closing them leaves the archive, compressed as
   * codec says, written over d at p; a refusal of the output or a short last body is the
   * command's error.
   */
  method CloseOutput(tw: TarWriter, comp: Compressor?, ghost out: Handle, ghost codec: Option<Codec>, ghost w: Option<Error>,
                     ghost d: seq<byte>, ghost p: nat) returns (err: Option<Error>)
    requires tw.Tracks() && !tw.closed && tw.Refusal() == w
    requires codec.None? ==> comp == null && tw.sink == ToFile(out) && tw.start == FileView(d, p)
    requires codec.Some? ==>
               comp != null && tw.sink == ToCompressor(comp) && comp.dst == out && comp.codec == codec.value &&
               comp.lib == tw.lib && tw.start == PendingView([]) && comp.base == d && comp.at == p
    modifies tw`err, tw`closed, tw`finished, tw.Footprint(), comp, out, out.node
    ensures err == if w.Some? then Some(CloseFailed(w.value))
                   else if Owed(tw.records) > 0 then Some(CloseFailed(MissedWriting(Owed(tw.records))))
                   else None
    ensures err.None? ==> out.node.data == Overwrite(d, p, Encoded(codec, tw.lib, TarBytes(tw.lib, tw.records) + Trailer()))
    ensures tw.records == old(tw.records)
  {
    err := CloseWriters(tw, comp, out);
  }

  /** `add` once its writers are made on out, which held d with its cursor at p: its sources, then the writers closed. */
  method AddThrough(tw: TarWriter, comp: Compressor?, out: Handle, fs: FileSystem, stdin: Handle?, args: seq<string>,
                    input: string, inputformat: string, directory: string, lib: Library,
                    ghost l: map<string, FileState>, ghost si: Option<FileState>, ghost codec: Option<Codec>,
                    ghost w: Option<Error>, ghost d: seq<byte>, ghost p: nat)
    returns (err: Option<Error>, ghost o: Outcome)
    requires forall v :: v in args ==> Shows(fs, l, v)
    requires Shows(fs, l, input)
    requires Inputs(fs, args) !! tw.Footprint() && (input in fs.files ==> fs.files[input] !in tw.Footprint())
    requires stdin != null ==> stdin !in tw.Footprint() && stdin.node !in tw.Footprint() && stdin != out
    requires si == StdinState(stdin) && tw.lib == lib && tw.records == [] && !tw.closed && tw.Tracks() && tw.Refusal() == w
    requires codec.None? ==> comp == null && tw.sink == ToFile(out) && tw.start == FileView(d, p)
    requires codec.Some? ==>
               comp != null && tw.sink == ToCompressor(comp) && comp.dst == out && comp.codec == codec.value &&
               comp.lib == lib && tw.start == PendingView([]) && comp.base == d && comp.at == p
    modifies tw`records, tw`err, tw`closed, tw`finished, tw.Footprint(), comp, out, out.node, stdin
    ensures o == AddRun(l, args, input, si, inputformat, directory, w, lib)
    ensures err == Finished(o, w)
    ensures err.None? ==> out.node.data == Overwrite(d, p, Encoded(codec, lib, TarBytes(lib, o.records) + Trailer()))
  {
    err, o := AddAll(tw, fs, stdin, args, input, inputformat, directory, lib, l, si, w);
    if err.Some? {
      return;
    }
    err := CloseOutput(tw, comp, out, codec, w, d, p);
  }

  /** `add` once its output is open: the compressor `--format` names, the tar writer, its sources, then the writers closed. */
  method AddTo(out: Handle, fs: FileSystem, stdin: Handle?, args: seq<string>, input: string, inputformat: string,
               directory: string, codec: Option<Codec>, lib: Library,
               ghost l: map<string, FileState>, ghost si: Option<FileState>, ghost w: Option<Error>)
    returns (err: Option<Error>, ghost o: Outcome)
    requires forall v :: v in args ==> Shows(fs, l, v)
    requires Shows(fs, l, input)
    requires out.node !in Inputs(fs, args) && (input in fs.files ==> fs.files[input] != out.node)
    requires stdin != out && (stdin != null ==> stdin.node != out.node)
    requires si == StdinState(stdin) && w == out.Refusal(OpWrite)
    modifies out, out.node, stdin
    ensures NewWriterError(codec, w).Some? ==> err == w && out.node.data == old(out.node.data)
    ensures o == AddRun(l, args, input, si, inputformat, directory, w, lib)
    ensures NewWriterError(codec, w).None? ==> err == Finished(o, w)
    ensures err.None? ==> out.node.data == Overwrite(old(out.node.data), old(out.pos), Encoded(codec, lib, TarBytes(lib, o.records) + Trailer()))
  {
    ghost var d, p := out.node.data, out.pos;
    var tw, comp;
    tw, comp, err := NewWriters(out, codec, lib);
    if err.Some? {
      o := AddRun(l, args, input, si, inputformat, directory, w, lib);
      return;
    }
    err, o := AddThrough(tw, comp, out, fs, stdin, args, input, inputformat, directory, lib, l, si, codec, w, d, p);
  }

  /** The bytes the output holds: standard output's file for "-", else the file the path names. */
  ghost function OutputData(fs: FileSystem, stdout: Handle, output: string): seq<byte>
    reads fs, stdout, stdout.node, fs.Target(output)
  {
    if output == "-" then stdout.node.data
    else if output in fs.files then fs.files[output].data
    else []
  }

  /**
   * `tarAddFunc`: the positional arguments are required; the output is opened; each argument is
   * added as a file or as the members of an archive, then the `--input` file or the archive on
   * standard input; the writers are closed. An xz compressor whose stream header the output
   * refuses ends the command at once. When the command succeeds, the output holds the new
   * archive, compressed as `--format` says.
   */
  method Add(fs: FileSystem, stdin: Handle?, stdout: Handle, args: seq<string>, input: string, output: string,
             format: string, inputformat: string, directory: string, lib: Library) returns (err: Option<Error>)
    requires Standard(fs, stdin, stdout, output)
    requires forall v :: v in args ==> Apart(fs, stdout, output, v)
    requires Apart(fs, stdout, output, input)
    modifies fs, fs.Target(output), stdout, stdout.node, stdin
    ensures args == [] ==> err == Some(NoArguments)
    ensures args == [] || old(OutputError(fs, output)).Some? ==>
              fs.files == old(fs.files) && OutputData(fs, stdout, output) == old(OutputData(fs, stdout, output))
    ensures fs.files == old(fs.files) || (output != "-" && output in fs.files && fs.files == old(fs.files)[output := fs.files[output]])
    ensures args != [] && old(OutputError(fs, output)).Some? ==> err == old(OutputError(fs, output))
    ensures args != [] && old(OutputError(fs, output)).None? ==>
              var s := old(OutputState(fs, stdout, output));
              var w := s.Refusal(OpWrite);
              var o := AddRun(old(Listing(fs)), args, input, old(StdinState(stdin)), inputformat, directory, w, lib);
              (NewWriterError(OutputCodec(format), w).Some? ==> err == w) &&
              (NewWriterError(OutputCodec(format), w).None? ==> err == Finished(o, w)) &&
              (err.None? ==> OutputData(fs, stdout, output) ==
                               Overwrite(s.data, s.pos, Encoded(OutputCodec(format), lib, TarBytes(lib, o.records) + Trailer())))
  {
    if |args| == 0 {
      return Some(NoArguments);
    }
    ghost var l := Listing(fs);
    ghost var si := StdinState(stdin);
    var out;
    out, err := OutputFile(fs, stdout, output);
    if err.Some? {
      return;
    }
    forall v | v in args ensures Shows(fs, l, v) {
      assert Apart(fs, stdout, output, v);
    }
    assert Shows(fs, l, input);
    ghost var s := out.State();
    assert out.node.data == s.data && out.pos == s.pos && out.Refusal(OpWrite) == s.Refusal(OpWrite);
    ghost var o;
    err, o := AddTo(out, fs, stdin, args, input, inputformat, directory, OutputCodec(format), lib, l, si, out.Refusal(OpWrite));
    assert OutputData(fs, stdout, output) == out.node.data;
  }

  /** What `merge` writes through its tar writer: standard input, then its arguments. */
  method MergeAll(tw: TarWriter, fs: FileSystem, stdin: Handle?, args: seq<string>, inputformat: string, lib: Library,
                  ghost l: map<string, FileState>, ghost si: Option<FileState>, ghost r: Option<Error>)
    returns (err: Option<Error>, ghost o: Outcome)
    requires forall v :: v in args ==> Shows(fs, l, v)
    requires Inputs(fs, args) !! tw.Footprint()
    requires stdin != null ==> stdin !in tw.Footprint() && stdin.node !in tw.Footprint()
    requires si == StdinState(stdin) && r == tw.Refusal() && tw.records == []
    modifies tw`records, tw`err, tw.Footprint(), stdin
    ensures o == MergeRun(l, args, si, inputformat, r, lib)
    ensures tw.records == o.records && err == o.err
    ensures tw.Refusal() == r
    ensures old(tw.Tracks()) ==> tw.Tracks()
  {
    o := MergeRun(l, args, si, inputformat, r, lib);
    ghost var rec0 := tw.records;
    ghost var b;
    err, b := MergeInput(tw, stdin, inputformat, lib, si, r);
    if err.Some? {
      return;
    }
    forall v | v in args ensures Shows(fs, l, v) {
      assert old(Shows(fs, l, v));
    }
    ghost var a := Sources(args, Each(l, ByArchive, r, lib));
    err := AddTars(tw, fs, args, lib, l);
    AppendAssoc(rec0, b.records, a.records);
    assert rec0 + (b.records + a.records) == b.records + a.records;
  }

  /** The compressor `merge` puts on its output, if any. */
  function Compression(m: MergeOutput): (c: Option<Codec>)
    ensures c.None? <==> !m.Compressed?
  {
    if m.Compressed? then Some(m.codec) else None
  }

  /**
   * The end of `merge`: only the tar writer is closed. On a raw output, which held d with its
   * cursor at p, the archive lands over d at p. A compressor is never closed, so it keeps the
   * archive; a compressed output holds the stream header over d at p when it went out at
   * creation (xz) or with a record or the end marker, and d otherwise.
   */
  method CloseMerge(tw: TarWriter, ghost out: Handle, ghost codec: Option<Codec>, ghost w: Option<Error>,
                    ghost d: seq<byte>, ghost p: nat) returns (err: Option<Error>)
    requires tw.Tracks() && !tw.closed && tw.Refusal() == w
    requires codec.None? ==> tw.sink == ToFile(out) && tw.start == FileView(d, p)
    requires codec.Some? ==>
               tw.sink.ToCompressor? && tw.sink.comp.dst == out && tw.sink.comp.codec == codec.value &&
               tw.sink.comp.lib == tw.lib && tw.sink.comp.base == d && tw.sink.comp.at == p && tw.start == PendingView([])
    modifies tw`err, tw`closed, tw`finished, tw.Footprint(), out, out.node
    ensures err == if w.Some? then Some(CloseFailed(w.value))
                   else if Owed(tw.records) > 0 then Some(CloseFailed(MissedWriting(Owed(tw.records))))
                   else None
    ensures codec.None? && err.None? ==> out.node.data == Overwrite(d, p, TarBytes(tw.lib, tw.records) + Trailer())
    ensures codec.Some? ==>
              out.node.data == if tw.primed || tw.records != [] || err.None? then Overwrite(d, p, tw.lib.preamble(codec.value)) else d
    ensures tw.records == old(tw.records)
  {
    err := CloseWriters(tw, null, out);
  }

  /**
   * `merge` once its writers are made on out, which held d with its cursor at p: standard input
   * and its arguments, then the tar writer closed. A raw output gets the archive over d at p; a
   * compressed output holds the stream header over d at p once the compressor wrote it.
   */
  method MergeThrough(tw: TarWriter, out: Handle, fs: FileSystem, stdin: Handle?, args: seq<string>, inputformat: string,
                      lib: Library, ghost l: map<string, FileState>, ghost si: Option<FileState>, ghost codec: Option<Codec>,
                      ghost w: Option<Error>, ghost d: seq<byte>, ghost p: nat)
    returns (err: Option<Error>, ghost o: Outcome)
    requires forall v :: v in args ==> Shows(fs, l, v)
    requires Inputs(fs, args) !! tw.Footprint()
    requires stdin != null ==> stdin !in tw.Footprint() && stdin.node !in tw.Footprint()
    requires si == StdinState(stdin) && tw.lib == lib && tw.records == [] && !tw.closed && tw.Tracks() && tw.Refusal() == w
    requires codec.None? ==> tw.sink == ToFile(out) && tw.start == FileView(d, p)
    requires codec.Some? ==>
               tw.sink.ToCompressor? && tw.sink.comp.dst == out && tw.sink.comp.codec == codec.value &&
               tw.sink.comp.lib == lib && tw.sink.comp.base == d && tw.sink.comp.at == p && tw.start == PendingView([])
    modifies tw`records, tw`err, tw`closed, tw`finished, tw.Footprint(), out, out.node, stdin
    ensures o == MergeRun(l, args, si, inputformat, w, lib)
    ensures err == Finished(o, w)
    ensures codec.None? && err.None? ==> out.node.data == Overwrite(d, p, TarBytes(lib, o.records) + Trailer())
    ensures codec.Some? ==>
              out.node.data == if tw.primed || o.records != [] || err.None? then Overwrite(d, p, lib.preamble(codec.value)) else d
    ensures w.Some? ==> o.records == []
  {
    err, o := MergeAll(tw, fs, stdin, args, inputformat, lib, l, si, w);
    assert tw.SinkRefusal() == w;
    if err.Some? {
      assert !tw.finished;
      return;
    }
    err := CloseMerge(tw, out, codec, w, d, p);
  }

  /**
   * `merge` once its output is open and its compression known. The compressor's variable is
   * shadowed inside the switch, so only the tar writer is closed: a compressed output receives
   * at most the compressor's stream header, which xz writes at once and gzip with the first
   * record or the end marker.
   */
  method MergeInto(out: Handle, fs: FileSystem, stdin: Handle?, args: seq<string>, inputformat: string, m: MergeOutput,
                   lib: Library, ghost l: map<string, FileState>, ghost si: Option<FileState>, ghost w: Option<Error>)
    returns (err: Option<Error>, ghost o: Outcome)
    requires !m.Unavailable?
    requires forall v :: v in args ==> Shows(fs, l, v)
    requires out.node !in Inputs(fs, args)
    requires stdin != out && (stdin != null ==> stdin.node != out.node)
    requires si == StdinState(stdin) && w == out.Refusal(OpWrite)
    modifies out, out.node, stdin
    ensures o == MergeRun(l, args, si, inputformat, w, lib)
    ensures NewWriterError(Compression(m), w).Some? ==> err == w
    ensures NewWriterError(Compression(m), w).None? ==> err == Finished(o, w)
    ensures err.None? && m.Raw? ==> out.node.data == Overwrite(old(out.node.data), old(out.pos), TarBytes(lib, o.records) + Trailer())
    ensures m.Compressed? ==>
              out.node.data == if w.None? && (m.codec == Xz || o.records != [] || err.None?)
                               then Overwrite(old(out.node.data), old(out.pos), lib.preamble(m.codec)) else old(out.node.data)
  {
    o := MergeRun(l, args, si, inputformat, w, lib);
    ghost var d, p := out.node.data, out.pos;
    var tw, comp;
    tw, comp, err := NewWriters(out, Compression(m), lib);
    if err.Some? {
      return;
    }
    assert tw.Footprint() <= {comp, out, out.node};
    err, o := MergeThrough(tw, out, fs, stdin, args, inputformat, lib, l, si, Compression(m), w, d, p);
  }

  /**
   * `merge`: no arguments and an unusable `--output` are errors before anything is written; an
   * unknown compression format is an error once the output exists; otherwise standard input and
   * then each argument are merged into one archive, which reaches a raw output over what it held
   * at its cursor. A compressed output receives at most the compressor's stream header: xz
   * writes it at once, and ends the command when the output refuses it; gzip writes it with the
   * first record or the end marker, so a run that fails before either leaves the output as it was.
   */
  method Merge(fs: FileSystem, stdin: Handle?, stdout: Handle, args: seq<string>, compress: bool, format: string,
               inputformat: string, output: string, lib: Library) returns (err: Option<Error>)
    requires Standard(fs, stdin, stdout, output)
    requires forall v :: v in args ==> Apart(fs, stdout, output, v)
    modifies fs, fs.Target(output), stdout, stdout.node, stdin
    ensures args == [] ==> err == Some(NoArguments)
    ensures args == [] || old(OutputError(fs, output)).Some? ==>
              fs.files == old(fs.files) && OutputData(fs, stdout, output) == old(OutputData(fs, stdout, output))
    ensures fs.files == old(fs.files) || (output != "-" && output in fs.files && fs.files == old(fs.files)[output := fs.files[output]])
    ensures args != [] && old(OutputError(fs, output)).Some? ==> err == old(OutputError(fs, output))
    ensures args != [] && old(OutputError(fs, output)).None? && MergeCodec(compress, format).Unavailable? ==>
              err == Some(FormatUnavailable(format)) && OutputData(fs, stdout, output) == old(OutputState(fs, stdout, output)).data
    ensures args != [] && old(OutputError(fs, output)).None? && !MergeCodec(compress, format).Unavailable? ==>
              var s := old(OutputState(fs, stdout, output));
              var m := MergeCodec(compress, format);
              var w := s.Refusal(OpWrite);
              var o := MergeRun(old(Listing(fs)), args, old(StdinState(stdin)), inputformat, w, lib);
              (NewWriterError(Compression(m), w).Some? ==> err == w) &&
              (NewWriterError(Compression(m), w).None? ==> err == Finished(o, w)) &&
              (err.None? && m.Raw? ==> OutputData(fs, stdout, output) == Overwrite(s.data, s.pos, TarBytes(lib, o.records) + Trailer())) &&
              (m.Compressed? ==>
                 OutputData(fs, stdout, output) ==
                   if w.None? && (m.codec == Xz || o.records != [] || err.None?) then Overwrite(s.data, s.pos, lib.preamble(m.codec))
                   else s.data)
  {
    if |args| == 0 {
      return Some(NoArguments);
    }
    ghost var l := Listing(fs);
    ghost var si := StdinState(stdin);
    var out;
    out, err := OutputFile(fs, stdout, output);
    if err.Some? {
      return;
    }
    ghost var s := out.State();
    assert out.node.data == s.data && out.pos == s.pos && out.Refusal(OpWrite) == s.Refusal(OpWrite);
    var m := MergeCodec(compress, format);
    if m.Unavailable? {
      assert OutputData(fs, stdout, output) == out.node.data;
      return Some(FormatUnavailable(format));
    }
    forall v | v in args ensures Shows(fs, l, v) {
      assert Apart(fs, stdout, output, v);
    }
    assert s == old(OutputState(fs, stdout, output));
    ghost var o;
    ghost var files := fs.files;
    err, o := MergeInto(out, fs, stdin, args, inputformat, m, lib, l, si, s.Refusal(OpWrite));
    if output == "-" {
      assert out == stdout;
    } else {
      assert fs.files == files && files[output] == out.node;
    }
    assert OutputData(fs, stdout, output) == out.node.data;
    assert o == MergeRun(old(Listing(fs)), args, old(StdinState(stdin)), inputformat, s.Refusal(OpWrite), lib);
  }

  /** What `append` adds after the copied archive: each argument as a file entry. */
  function AppendRun(l: map<string, FileState>, args: seq<string>, directory: string, refusal: Option<Error>, lib: Library): Outcome
  {
    Sources(args, Each(l, ByFile(directory), refusal, lib))
  }

  /**
   * `append` once the output is reopened and its cursor placed: the compressor `--format`
   * names, the tar writer, one file entry per argument, then both writers closed.
   */
  method AppendTo(out: Handle, fs: FileSystem, args: seq<string>, directory: string, codec: Option<Codec>, lib: Library,
                  ghost l: map<string, FileState>, ghost w: Option<Error>)
    returns (err: Option<Error>, ghost o: Outcome)
    requires forall v :: v in args ==> Shows(fs, l, v)
    requires out.node !in Inputs(fs, args)
    requires w == out.Refusal(OpWrite)
    modifies out, out.node
    ensures NewWriterError(codec, w).Some? ==> err == w && out.node.data == old(out.node.data)
    ensures o == AppendRun(l, args, directory, w, lib)
    ensures NewWriterError(codec, w).None? ==> err == Finished(o, w)
    ensures err.None? ==> out.node.data == Overwrite(old(out.node.data), old(out.pos), Encoded(codec, lib, TarBytes(lib, o.records) + Trailer()))
  {
    ghost var d, p := out.node.data, out.pos;
    o := AppendRun(l, args, directory, w, lib);
    var tw, comp;
    tw, comp, err := NewWriters(out, codec, lib);
    if err.Some? {
      return;
    }
    assert tw.Footprint() <= {comp, out, out.node};
    err := AddFiles(tw, fs, args, directory, lib, l);
    if err.Some? {
      return;
    }
    assert tw.records == o.records && tw.lib == lib && o.err.None?;
    err := CloseOutput(tw, comp, out, codec, w, d, p);
    assert NewWriterError(codec, w).None?;
    assert err == Finished(o, w);
    assert err.None? ==> out.node.data == Overwrite(d, p, Encoded(codec, lib, TarBytes(lib, o.records) + Trailer()));
  }

  /** The error reopening the output by its name meets: a created file reopens, standard output only if its name is in the directory. */
  ghost function ReopenError(fs: FileSystem, stdout: Handle, output: string): Option<Error>
    reads fs, stdout
  {
    if output == "-" then fs.OpenRefusal(stdout.name) else None
  }

  /** The error every write to the reopened output meets: it is opened for writing, so only a fault of its file. */
  function ReopenedRefusal(s: FileState): Option<Error>
  {
    Refused(s.name, s.faults, true, 0, OpWrite)
  }

  /**
   * `append` once the output is open: the `--input` file opened (its error returned as it is),
   * copied into the output and the output reopened 1024 bytes before its end (its error returned
   * as it is), then the new entries written there.
   */
  method AppendFrom(out: Handle, fs: FileSystem, args: seq<string>, input: string, format: string, directory: string,
                    lib: Library, ghost l: map<string, FileState>, ghost s: FileState, ghost reopen: Option<Error>)
    returns (err: Option<Error>)
    requires forall v :: v in args ==> Shows(fs, l, v)
    requires Shows(fs, l, input)
    requires out.node !in Inputs(fs, args) && (input in fs.files ==> fs.files[input] != out.node)
    requires out.name in fs.files ==> fs.files[out.name] == out.node
    requires s == out.State() && reopen == fs.OpenRefusal(out.name)
    modifies out, out.node
    ensures old(fs.OpenRefusal(input)).Some? ==> err == old(fs.OpenRefusal(input))
    ensures old(fs.OpenRefusal(input)).None? ==>
              input in l &&
              var r := SeekedOutcome(l[input], s, reopen, -1024, lib);
              (r.err.Some? ==> err == r.err && out.node.data == r.data) &&
              (r.err.None? ==>
                 var w := ReopenedRefusal(s);
                 var o := AppendRun(l, args, directory, w, lib);
                 (NewWriterError(OutputCodec(format), w).Some? ==> err == w) &&
                 (NewWriterError(OutputCodec(format), w).None? ==> err == Finished(o, w)) &&
                 (err.None? ==> out.node.data == Overwrite(r.data, r.cursor, Encoded(OutputCodec(format), lib, TarBytes(lib, o.records) + Trailer()))))
  {
    var inputFile;
    inputFile, err := fs.Open(input);
    if err.Some? {
      return;
    }
    assert inputFile.State() == l[input];
    var seeked;
    seeked, err := GetSeekedTar(fs, inputFile, out, -1024, lib);
    if err.Some? {
      return;
    }
    forall v | v in args ensures Shows(fs, l, v) {
      assert old(Shows(fs, l, v));
    }
    ghost var o;
    err, o := AppendTo(seeked, fs, args, directory, OutputCodec(format), lib, l, seeked.Refusal(OpWrite));
  }

  /**
   * `append`: no arguments is an error; so is an empty `--input` when standard input is missing
   * or empty, and an unusable `--output`. The `--input` archive is then copied into the output,
   * which is reopened 1024 bytes before its end, and each argument is added there as a file
   * entry. An empty `--input` that passed the standard input check still fails, on opening "".
   */
  method Append(fs: FileSystem, stdin: Handle?, stdout: Handle, args: seq<string>, input: string, output: string,
                format: string, directory: string, lib: Library) returns (err: Option<Error>)
    requires Standard(fs, stdin, stdout, output)
    requires forall v :: v in args ==> Apart(fs, stdout, output, v)
    requires Apart(fs, stdout, output, input)
    modifies fs, fs.Target(output), stdout, stdout.node
    ensures input == "" ==> err.Some?
    ensures args == [] ==> err == Some(NoArguments)
    ensures args == [] || (input == "" && !old(FileExistAndNotEmpty(stdin))) || old(OutputError(fs, output)).Some? ==>
              fs.files == old(fs.files) && OutputData(fs, stdout, output) == old(OutputData(fs, stdout, output))
    ensures fs.files == old(fs.files) || (output != "-" && output in fs.files && fs.files == old(fs.files)[output := fs.files[output]])
    ensures args != [] && input == "" && !old(FileExistAndNotEmpty(stdin)) ==> err == Some(EmptyInput)
    ensures args != [] && (input != "" || old(FileExistAndNotEmpty(stdin))) ==>
              (old(OutputError(fs, output)).Some? ==> err == old(OutputError(fs, output))) &&
              (old(OutputError(fs, output)).None? && old(fs.OpenRefusal(input)).Some? ==> err == old(fs.OpenRefusal(input)))
    ensures args != [] && old(OutputError(fs, output)).None? && old(fs.OpenRefusal(input)).None? ==>
              var l := old(Listing(fs));
              var s := old(OutputState(fs, stdout, output));
              var r := SeekedOutcome(l[input], s, old(ReopenError(fs, stdout, output)), -1024, lib);
              (r.err.Some? ==> err == r.err && OutputData(fs, stdout, output) == r.data) &&
              (r.err.None? ==>
                 var w := ReopenedRefusal(s);
                 var o := AppendRun(l, args, directory, w, lib);
                 (NewWriterError(OutputCodec(format), w).Some? ==> err == w) &&
                 (NewWriterError(OutputCodec(format), w).None? ==> err == Finished(o, w)) &&
                 (err.None? ==> OutputData(fs, stdout, output) ==
                                  Overwrite(r.data, r.cursor, Encoded(OutputCodec(format), lib, TarBytes(lib, o.records) + Trailer()))))
  {
    if |args| == 0 {
      return Some(NoArguments);
    }
    if input == "" && !FileExistAndNotEmpty(stdin) {
      return Some(EmptyInput);
    }
    ghost var l := Listing(fs);
    ghost var reopen := ReopenError(fs, stdout, output);
    var out;
    out, err := OutputFile(fs, stdout, output);
    if err.Some? {
      return;
    }
    forall v | v in args ensures Shows(fs, l, v) {
      assert Apart(fs, stdout, output, v);
    }
    assert Shows(fs, l, input);
    ghost var s := out.State();
    assert s == old(OutputState(fs, stdout, output));
    assert reopen == fs.OpenRefusal(out.name);
    ghost var files := fs.files;
    err := AppendFrom(out, fs, args, input, format, directory, lib, l, s, reopen);
    if output == "-" {
      assert out == stdout;
    } else {
      assert fs.files == files && files[output] == out.node;
    }
    assert OutputData(fs, stdout, output) == out.node.data;
  }
}
