# tar-cat in Dafny

A model of the archive-composition core of tar-cat, a command-line tool that concatenates,
extends and merges tar archives compressed with gzip, xz or nothing. The model covers the
helpers in `utils/utils.go` and the three commands built on them:

- `add` (`cmd/add.go`) writes a new archive. It takes each positional argument as a file or as
  the members of an archive, then the `--input` file or the archive on standard input.
- `merge` (`cmd/merge.go`) writes the members of the archive on standard input, then the members
  of each argument archive.
- `append` (`cmd/append.go`) copies the `--input` archive, decompressed, into the output. It
  reopens the output 1024 bytes before its end, so that the new entries overwrite the old
  end-of-archive marker.

Modules, in dependency order:

- `Base`: bytes, `Option`, and the tool's errors with the text Go prints for each.
- `Paths`: `filepath.Ext` and the base name `os.Stat` reports.
- `Archive`: tar members and records, and the byte layout of a tar stream. The codecs the tool
  calls are fields of a `Library` parameter: content sniffing, gzip/xz decoding and encoding,
  tar parsing, and header encoding.
- `Files`: inodes, open handles with a cursor and a close count, and a directory of named
  files. Each file lists the operations the operating system refuses on it.
- `Writers`: the compressor and `tar.Writer`, as classes. A tar writer keeps a log of its
  records. Its predicate `Tracks` says that its sink received exactly the bytes of that log.
- `Tables`: the content-type and format switches.
- `ReferenceTar`: a concrete header layout and tar reader. It shows that the round-trip property
  `RoundTrips` can hold, so the lemmas that assume it are not vacuous.
- `Transfer`: the two entry-copy loops as functions over the member stream.
- `Utils`: `utils/utils.go`, operation by operation, as methods over those classes.
- `Commands`: the three commands. Each is specified twice:
  - by a function of the files it reads (`AddRun`, `MergeRun`, `AppendRun`);
  - by a method proved to write exactly that function's records, encoded and compressed, at the
    output's cursor.

The model keeps these behaviours of the code, each stated in a contract:

- `ReadContentType` rewinds to offset 0, not to the position the file had before sniffing.
- `GetReader` closes the file twice when sniffing fails or the content type is unknown.
- `NewCrdr` decodes every binary (`application/octet-stream`) file through xz, whatever its name.
  `GetSeekedTar` does so only for names ending in `.xz`.
- `AddTarFromBuffer` (standard input in `add`) declares a new `err` inside its loop. A failed
  header write or copy therefore ends the loop without becoming its result.
- In `merge` the compressor variable is shadowed inside the format switch, so the compressor is
  never closed. A compressed `merge` output never holds a complete compressed stream. An xz
  output holds the stream header. A gzip output holds the header only if something was written
  through the tar writer; it stays as it was when `merge` fails before the first write.
- `xz.NewWriter` writes its stream header to the output at once. If the output refuses it, the
  command returns that error before it reads any source. `gzip.NewWriterLevel` writes nothing:
  the gzip header goes out with the first write or at the close. If that write fails, the error
  stays, and every later write and the close return it.
- `tar.Writer.Close` first checks that the last body was written in full. If bytes are still
  owed, it returns "archive/tar: missed writing N bytes" and writes no end marker.
- `merge` skips standard input whenever the error opening it contains "empty". That covers the
  missing-file error, and also any file name or OS message that contains the word.
- `append` with an empty `--input` passes the standard-input check, then fails on `os.Open("")`.
  It never reads standard input.
- `append` reopens the output by name. With `--output -` that works only if standard output's
  name is a file in the directory.
- `tar.FileInfoHeader` takes a link target as its second argument. The `--directory` prefix the
  code passes there is therefore ignored, and a plain file's entry is named after its base name
  (`PlainFileEntry`). The tool's description of `add` suggests that entries go under that
  directory; the model follows the code.
- A decoder error that comes after the tar end marker is never seen: the tar reader stops at the
  marker. One that comes earlier is what the tar reader reports (`Archive.EntryStream`).

## Model

| member | source | states |
|---|---|---|
| Tables.GetCTFromFormat | utils/utils.go:40-51 | the format hint maps to the gzip type exactly for "gzip", and to the tar type for every other hint |
| Tables.CrdrCodec | utils/utils.go:194-203 | `NewCrdr`'s decoder is gzip exactly for the gzip type, xz exactly for the tar type, and none (an error) for any other type |
| Tables.AddFileTreatment | utils/utils.go:394-412 | `AddFile` treats a path as an archive exactly when it is gzip, or binary named `.xz` or `.tar` |
| Tables.SeekedCodec | utils/utils.go:87-104 | `GetSeekedTar` decodes gzip data with gzip and binary data named `.xz` with xz, and copies everything else as it is |
| Tables.OutputCodec | cmd/add.go:87-100 | the output compressor is xz exactly for "xz" and gzip exactly for "gzip" |
| Tables.MergeCodec | cmd/merge.go:81-99 | `merge` output is raw exactly without `--compress`; an unknown format with it is unavailable; otherwise the codec `--format` names |
| Tables.HintAlwaysDecodes | utils/utils.go:165-167 | with a format hint, `GetReader` always finds a decoder, and every hint other than "gzip" (including "none") selects xz |
| Tables.TarFileGoesThroughXz | utils/utils.go:401-409 | a binary file named `.tar` is an archive to `AddFile`, which reads it through xz, while `GetSeekedTar` would copy it unchanged |
| Tables.NilInputIsSkipped | cmd/merge.go:106 | the nil-input error text contains "empty", so `merge` skips a missing standard input |
| Tables.EndOfFileIsNotSkipped | cmd/merge.go:106-107 | `io.EOF` is not skipped |
| Base.ContainsSuffix | cmd/merge.go:106 | a string contains each of its suffixes (used to show that `strings.Contains` holds) |
| Paths.Ext | utils/utils.go:387 | `filepath.Ext` returns a suffix of the path |
| Paths.ExtShape | utils/utils.go:387 | a non-empty extension starts with '.', and contains neither '/' nor a later '.' |
| Paths.ExtEmpty | utils/utils.go:387 | the extension is empty exactly when the last path element has no '.' |
| Paths.TarExtension | utils/utils.go:402 | `Ext("a.tar")` is ".tar" |
| Paths.XzExtension | utils/utils.go:402 | `Ext("b.tar.xz")` is ".xz" |
| Paths.BaseName | utils/utils.go:378 | the name `os.Stat` reports is "/" or has no '/', and is non-empty for a non-empty path |
| Paths.BaseNameOfNestedPath | utils/utils.go:357 | the entry for "d/a" is named "a" |
| Archive.FileInfoHeader | utils/utils.go:357 | a regular file's header takes its name and size from the file info; the second argument does not enter it |
| Archive.EndError | utils/utils.go:291-297 | the end of a member stream is an error exactly when it is not `io.EOF` |
| Archive.FlattenAppend | cmd/merge.go:110-114 | the records of two member runs in sequence are the first run's records, then the second's |
| Archive.TarBytesAppend | utils/utils.go:322-327 | the tar writer's bytes for two record runs are the bytes of the first, then of the second |
| Archive.FlattenConcat | cmd/merge.go:110-114 | the records of any number of member runs in sequence are each run's records, run after run |
| Archive.OwedAfter | utils/utils.go:321-333 | after a member's header and body, the writer still owes the part of the declared size the body lacks |
| Archive.OwedSized | utils/utils.go:321-333 | members whose bodies hold at least their declared sizes leave nothing owed, so `Close` does not report missed writing |
| Archive.SizedConcat | cmd/merge.go:110-114 | archives whose members each hold their declared sizes stay so when put one after the other |
| Archive.CutShort | utils/utils.go:182 | when the decoder fails before the tar reader stops, the members keep their headers and bodies, every cut-short body and the end report the decoder's error |
| Archive.LateDecoderFault | utils/utils.go:290-297 | a decoder error after the bytes where the tar reader stops changes nothing; one before it becomes the end of the stream, with as many members |
| Files.FileSystem.Create | utils/utils.go:70-73 | `CreateNewOutput`: an empty path or a refused open is an error that leaves the directory unchanged; otherwise the file is truncated or made, and a fresh read-write handle sits at offset 0 |
| Files.FileSystem.StatRefusal | utils/utils.go:378-381 | `os.Stat` succeeds exactly on a non-empty path the directory holds whose stat is not refused; a missing path is "no such file or directory" |
| Files.FileSystem.Open | utils/utils.go:133 | `os.Open` fails with the open refusal; otherwise it returns a fresh read-only handle at offset 0 |
| Files.FileSystem.OpenReadWrite | utils/utils.go:114 | `os.OpenFile(..., O_RDWR)` on an existing file gives a fresh writable handle at offset 0 |
| Files.Handle.Read | utils/utils.go:56 | one read returns up to n bytes from the cursor, `io.EOF` at the end, or the refusal; the cursor moves past what was read |
| Files.Handle.Seek | utils/utils.go:119-125 | a seek from the start or the end moves the cursor there; a negative target is "invalid argument" and leaves the cursor |
| Files.Handle.Write | utils/utils.go:106 | a write overwrites the file at the cursor and moves the cursor past it, or fails and changes nothing |
| Files.Handle.Close | utils/utils.go:208-211 | each close is counted and returns the file's close refusal; once the handle is closed that refusal is "file already closed" |
| Utils.Probe | utils/utils.go:54-61 | the sniffer sees 512 bytes: what the read gave, padded with zeros |
| Utils.ReadError | utils/utils.go:56-59 | the probe read fails exactly when the file refuses reads or has no bytes left (`io.EOF`) |
| Utils.SniffError | utils/utils.go:53-68 | sniffing fails exactly when the read or the rewind fails, and a read error comes first |
| Utils.ReadContentType | utils/utils.go:53-68 | the content type is the sniffer's verdict on the probe; on success the cursor is 0; on either failure the file is closed once |
| Utils.Crdr.Close | utils/utils.go:208-211 | closing the decoder closes its input file and returns that error |
| Utils.CrdrError | utils/utils.go:190-206 | `NewCrdr` fails with "unknown file type" for an undecodable type, else exactly when the file refuses reads or the decoder rejects its header |
| Utils.NewCrdr | utils/utils.go:190-206 | the decoder the content type selects; an unknown type closes the file once |
| Utils.TarReader.Next | utils/utils.go:291 | `Next` yields the members in order, then the end with its error again and again |
| Utils.ReaderOutcome | utils/utils.go:153-188 | `GetReader` fails after closing the file once or twice, or is ready with a codec and the bytes to decode |
| Utils.GetReader | utils/utils.go:153-188 | a nil file is "file input is empty"; a stat, sniff or decoder failure closes the file as `ReaderOutcome` counts; success gives a reader over the decoded members, positioned at the first |
| Utils.OpenTarFile | utils/utils.go:130-138 | an open error is returned unchanged; otherwise `GetReader` without a hint on a fresh handle |
| Utils.HintSkipsSniffing | utils/utils.go:165-174 | with a hint, the sniffer and seek faults make no difference, and decoding starts at the cursor |
| Utils.DrainedInputIsEndOfFile | utils/utils.go:169-173 | without a hint, an input at its end fails with `io.EOF` and is closed twice |
| Utils.SniffedReaderRewinds | utils/utils.go:62 | without a hint, an accepted file is decoded from its first byte, through the decoder its sniffed type selects |
| Utils.CopiedOutcome | utils/utils.go:106-127 | `GetSeekedTar` succeeds only after closing the output once and reopening it |
| Utils.CopyInto | utils/utils.go:106-108 | `io.Copy` writes the decoded bytes (nothing when there are none); a write error comes before the decoder's |
| Utils.CopyAndReopen | utils/utils.go:106-127 | copy, close, reopen by name and seek, each error ending it; the output file ends as `CopiedOutcome` says |
| Utils.GetSeekedTar | utils/utils.go:79-128 | the output's bytes, close count, error and reopened cursor are those of `SeekedOutcome`; the reopened handle is returned even when the seek fails; the input is closed once exactly when sniffing fails; when `GetSeekedTar` succeeds the input has been read to its end |
| Utils.SeekedDecoder | utils/utils.go:86-104 | once sniffing succeeds, gzip data is gunzipped, binary `.xz` data is unxz'd, and anything else is copied unchanged |
| Utils.SeekedWindow | utils/utils.go:119-125 | into a fresh output, a seek of -n after a clean copy succeeds exactly when at least n bytes were copied, n before the end; otherwise "invalid argument" |
| Utils.FileExistAndNotEmpty | utils/utils.go:140-151 | true exactly when there is a file, `Stat` succeeds, and it holds at least one byte |
| Utils.AppendPart | utils/utils.go:321-333 | header, then body; the writer's error or the body's read error is the result, and the records written are those of the member when the writer accepted it |
| Utils.NextPart | utils/utils.go:290-309 | one turn of the loop: `Next`, then `appendPart` on the member it yields |
| Utils.CopyEntries | utils/utils.go:290-309 | the loop writes the records `Drain` gives for the members left, and ends with its error |
| Utils.CopyEntriesSwallowing | utils/utils.go:215-239 | the loop writes the records `DrainSwallowing` gives, and ends with its error |
| Utils.AddTarFromWriter | utils/utils.go:251-319 | `Drain`'s records; its error, else the error closing the input; the input is closed once either way |
| Utils.AddTarFromBuffer | utils/utils.go:213-249 | the same with `DrainSwallowing`: only a `Next` error or the close error is reported |
| Utils.AddTar | utils/utils.go:335-344 | an open error adds nothing; otherwise the records and error of `TarOutcome` for the file as opened |
| Utils.FileOutcome | utils/utils.go:346-373 | a plain file that succeeds adds its header (base name, size) and its whole remaining contents; a refusing writer adds nothing |
| Utils.AppendFile | utils/utils.go:356-373 | `FileOutcome`'s records; the error is the writer's or the read's, never the close's |
| Utils.AddFileFromBuffer | utils/utils.go:346-354 | `FileOutcome`'s records and error; the file is closed only when `appendFile` succeeded |
| Utils.AddSniffed | utils/utils.go:394-412 | by treatment, the archive's `TarOutcome` (the sniffing handle stays open) or the plain file's `FileOutcome` |
| Utils.AddOpened | utils/utils.go:383-412 | the records and error of `OpenedOutcome`; an archive never closes the handle opened for sniffing |
| Utils.SniffedOutcome | utils/utils.go:394-412 | after sniffing, `OpenedOutcome` is the archive or the plain-file outcome its treatment selects |
| Utils.AddExisting | utils/utils.go:383-413 | past a successful `os.Stat`: an open error adds nothing; otherwise the records and error of `OpenedOutcome`; an archive leaves its sniffing handle open |
| Utils.AddFile | utils/utils.go:375-413 | a missing path is a stat error that adds nothing; otherwise the records and error of `AddFileOutcome`; an archive leaves its sniffing handle open |
| Transfer.DrainWritesAPrefix | utils/utils.go:290-318 | the loop writes whole members from the front, in order; it succeeds exactly when the stream ends with EOF, the writer accepts, and no body is cut short, and then it has written every member |
| Transfer.SwallowingWritesTheSame | utils/utils.go:215-243 | the `AddTarFromBuffer` loop writes the same records as `AddTarFromWriter`'s; it reports only the end-of-stream error, where the other reports the same |
| Transfer.WriterErrorIsSwallowed | utils/utils.go:230-243 | a refusing writer or a cut-short body is an error for `AddTarFromWriter` and a success for `AddTarFromBuffer` |
| Transfer.DrainTwoSources | cmd/merge.go:102-114 | two whole member streams drained one after the other give the records of both, in order |
| Transfer.IntactConcat | cmd/merge.go:110-114 | runs of members that all arrive whole, put together, still arrive whole |
| Writers.Compressor.Start | cmd/add.go:94-99 | the stream header goes to the file once, before anything else; a refused header write is kept as the compressor's error and leaves the file as it was |
| Writers.Compressor.Write | cmd/add.go:94-99 | the first write sends the stream header; a write is kept for the close, or fails with the header's error, which stays, and keeps nothing |
| Writers.Compressor.Close | cmd/add.go:128-132 | the first close reports a failed header write if there was one; otherwise it writes the stream header if no write did, then the compressed form of everything received, so the file holds the header and the compressed stream where the compressor was made |
| Writers.TarWriter.Write | utils/utils.go:322-327 | a record is logged exactly when the writer accepts it, and the sink keeps up with the log |
| Writers.TarWriter.CloseError | cmd/add.go:124-126 | `Close` succeeds exactly after an earlier `Close`, or with no error kept, nothing owed on the last body and a sink that accepts; a body shorter than its header is "missed writing" with the bytes owed |
| Writers.TarWriter.Close | cmd/add.go:124-126 | the result is `CloseError`; the end marker goes out only when there is no error kept and nothing owed; the log is unchanged and the sink keeps up |
| Writers.TarWriter.Seal | cmd/add.go:124-126 | the end marker goes to the sink, whose refusal is the result, and the writer is closed |
| Writers.ReceivedTwice | utils/utils.go:290-309 | bytes received in two steps are the same as both received at once |
| ReferenceTar.Holds | utils/utils.go:290-333 | a concrete header layout and tar reader meet `RoundTrips`: the reader reads back the members the writer wrote |
| Commands.Labelled | cmd/add.go:106 | a source's error is reported as "failed to merge <name>: ..."; its records are kept |
| Commands.SourcesStopAtFirstFailure | cmd/add.go:104-108 | the argument loop succeeds exactly when every argument does; otherwise its error names the first failing argument, with that argument's error |
| Commands.SourcesInOrder | cmd/add.go:104-108 | when each argument adds one whole member, the loop writes those members in argument order |
| Commands.SourcesConcatenate | cmd/add.go:104-108 | when every argument succeeds, the loop writes what each one gives, argument after argument, and succeeds |
| Commands.PlainFileEntry | utils/utils.go:356-373 | a readable plain file becomes one member named after its base name, whatever `--directory` says, holding the whole file |
| Commands.PlainFilesInOrder | cmd/add.go:104-108 | `add` over plain files writes one whole-file member per argument, in argument order |
| Commands.ArchiveEntries | utils/utils.go:335-344 | a readable archive whose members arrive whole gives `merge` exactly its members |
| Commands.Finished | cmd/add.go:124-134 | a command succeeds exactly when its sources succeed and closing its last writer does |
| Commands.StdinFailure | cmd/merge.go:102-108 | a stdin error is skipped exactly when its text contains "empty" |
| Commands.MergeSkipsOnlyMissingStdin | cmd/merge.go:102-108 | no standard input is skipped; standard input at its end, sniffed without a hint, stops `merge` with `io.EOF` |
| Commands.MergeJoinsArchives | cmd/merge.go:101-118 | two archives whose members arrive whole merge into the first's records, then the second's; the output's bytes are the two archives' member bytes, each without its end marker; under `RoundTrips`, when every body holds its declared size, the result reads back as the first's members followed by the second's |
| Commands.MergeJoinsAllArchives | cmd/merge.go:101-118 | any number of archives whose members arrive whole merge into all their records, archive after archive, and the output's bytes are each archive's member bytes in turn; under `RoundTrips`, with sized bodies, it reads back as all their members |
| Commands.MergeOfTwo | cmd/merge.go:110-114 | without standard input, two successful arguments give the first's records, then the second's |
| Commands.MergeWithoutStdin | cmd/merge.go:102-114 | without standard input, `merge` writes exactly what its arguments give |
| Commands.SourcesOfTwo | cmd/merge.go:110-114 | two successful sources give the first's records, then the second's |
| Commands.TrailerReplaced | cmd/append.go:88 | writing new records and a marker over an archive's end marker gives the archive, the records, and one marker |
| Commands.AppendExtendsArchive | cmd/append.go:84-119 | an uncompressed archive copied to an empty output and reopened 1024 bytes before its end, then extended, holds the old members' bytes, the new ones' and one end marker; under `RoundTrips`, with whole and sized members, it reads back as the old members followed by the new ones |
| Commands.OutputError | cmd/add.go:73-83 | `--output ""` is "missing output file", "-" never fails, and any other path fails as creating it does |
| Commands.OutputFile | cmd/add.go:73-83 | the `--output` switch: standard output for "-", else the created file, in the state `OutputState` says |
| Commands.NewWriterError | cmd/add.go:87-99 | making a compressor fails exactly for xz on an output that refuses writes, with that refusal |
| Commands.NewWriters | cmd/add.go:85-102 | xz writes its stream header to the output at once and gives up with that write's error; gzip writes nothing yet; a raw output is untouched; the tar writer starts with an empty log and refuses exactly what the output refuses |
| Commands.CloseWriters | cmd/add.go:124-132 | close the tar writer, then the compressor; the error is the writer's, else "missed writing" for a short last body; on success the output holds the archive (compressed) over what it held; without the compressor it holds the stream header exactly when that went out |
| Commands.AddSource | cmd/add.go:105 | `AddFile` on one argument adds what `Each` says |
| Commands.AddFiles | cmd/add.go:104-108 | the `add` and `append` argument loop writes what `Sources` says, and stops at the first failure |
| Commands.AddArchive | cmd/merge.go:111 | `AddTar` on one argument adds what `Each` says |
| Commands.AddTars | cmd/merge.go:110-114 | `merge`'s argument loop writes what `Sources` says, and stops at the first failure |
| Commands.AddInput | cmd/add.go:110-122 | `--input` is added as a file; without it, the standard-input archive goes through `AddTarFromBuffer` |
| Commands.OpenStdin | cmd/merge.go:102 | `GetReader` on standard input, stated over standard input's state |
| Commands.StdinFails | cmd/merge.go:102-108 | standard input that cannot be opened contributes only its error, or nothing |
| Commands.MergeInput | cmd/merge.go:102-108 | the standard-input step of `merge` writes `MergeInputOutcome`'s records and ends with its error |
| Commands.AddAll | cmd/add.go:104-122 | everything `add` writes before closing is `AddRun` |
| Commands.AddThrough | cmd/add.go:104-134 | with the writers made, `add` writes `AddRun`, ends with `Finished`, and leaves the encoded archive where the writers were made |
| Commands.CloseOutput | cmd/add.go:124-132 | closing leaves the stream header, then the archive compressed as `--format` says (or the raw archive), over the output at its cursor; a refusing output or a short last body is the error |
| Commands.AddTo | cmd/add.go:85-134 | an xz compressor refused by the output is the error, with the output untouched; otherwise `add` writes `AddRun`, ends with `Finished`, and leaves the encoded archive at the output's cursor |
| Commands.Add | cmd/add.go:44-135 | no arguments and a bad `--output` are errors first, with the directory and the output untouched; only the output's entry of the directory can change; otherwise the error is `xz.NewWriter`'s or `Finished(AddRun)`, and when `add` succeeds the output holds `AddRun`'s archive, encoded as `--format` says |
| Commands.MergeAll | cmd/merge.go:101-114 | everything `merge` writes before closing is `MergeRun` |
| Commands.Compression | cmd/merge.go:81-99 | `merge` has a compressor exactly for a compressed output |
| Commands.CloseMerge | cmd/merge.go:116-124 | only the tar writer is closed: a raw output gets the archive over what it held; a compressed output holds the stream header over what it held if the header went out (xz at creation, gzip with a record or the end marker), and what it held otherwise |
| Commands.MergeThrough | cmd/merge.go:101-126 | with the writers made, `merge` writes `MergeRun` and ends with `Finished`; the output is as `CloseMerge` says |
| Commands.MergeInto | cmd/merge.go:81-126 | `merge` with its output open writes `MergeRun`; a raw output then holds the archive at its cursor; a compressed output holds at most the stream header: always for xz on an accepting output, for gzip only when a record or the end marker went out |
| Commands.Merge | cmd/merge.go:45-127 | no arguments and a bad `--output` are errors with the directory and the output untouched; an unknown compression format is an error after the output is created; only the output's entry of the directory can change; otherwise the error is `xz.NewWriter`'s or `Finished(MergeRun)`, and the output is as `MergeInto` says |
| Commands.AppendTo | cmd/append.go:93-127 | an xz compressor refused by the output is the error; otherwise `append` writes `AppendRun`, ends with `Finished`, and leaves the encoded archive at the cursor |
| Commands.AppendFrom | cmd/append.go:84-127 | the `--input` open error and `GetSeekedTar`'s error are returned as they are; otherwise the new entries land at the reopened cursor |
| Commands.Append | cmd/append.go:43-128 | `append` with an empty `--input` always fails; no arguments, an empty `--input` with no or empty standard input, and a bad `--output` are errors in that order, with the directory and the output untouched; only the output's entry of the directory can change; otherwise the output is as `GetSeekedTar` and `AppendTo` say |

## Left out

- The codecs are parameters, fields of `Library`: `http.DetectContentType`, the gzip and xz
  readers and writers, the tar reader's parsing, and the tar header encoding. Their internals
  belong to Go's standard library and third-party packages. `RoundTrips` states the one
  property of the tar codec the read-back halves of the merge and append lemmas rest on: whole
  members whose bodies hold their declared sizes read back as written.
- Cobra flag parsing, `cmd/root.go` and the `init` functions are not part of this model. The
  flag values are parameters. `GetString`/`GetBool` on a registered flag does not fail.
- `os.Stdin` and `os.Stdout` are handles given to the commands. Standard input may be absent
  (`null`).
- The commented-out worker goroutine in `AddTarFromWriter` is dead code and is not modelled.
  The `TarPart` and `JobChannel` types are not modelled either; a `TarPart` is the `Member`
  that `AppendPart` receives.
- `XzCT` is declared but nothing produces it.
- Compressors: a compressor writes its stream header (xz when it is made, gzip at the first
  write or the close), holds everything else it is given, and writes the compressed stream when
  it is closed. The real compressors write compressed blocks as their buffers fill. So a
  compressed `merge` output, whose compressor is never closed, holds at most the stream header in
  the model, while the real file may also hold some compressed blocks. Neither is a complete
  stream. Compressed block boundaries belong to the codec, which is a parameter.
- Writers.Compressor.Write: a failure of the file partway through a write is not modelled. A
  write that the file refuses fails whole and writes nothing.
- Writers.Compressor.Close: a second close reports "write after close"; `gzip.Writer` returns
  nil. No command closes a compressor twice.
- `Library.stops` says whether the tar reader finishes without asking for bytes beyond those the
  decoder produced. It stands for the tar reader's own reads, which are not modelled.
- Files.FileSystem.CreateRefusal: creating a path the directory does not hold never fails. The
  operating system can refuse it, for a missing parent directory or a read-only one.
- Writers.TarWriter.Write: a body goes to the writer in one write, padded to whole blocks at
  once; `tar.Writer` pads it at the next header or at the close. `WriteHeader` also fails
  when the previous body still owes bytes. That is not modelled: a tar reader yields a short body
  only together with an error, which ends the copy loop, so no header follows it. "write too
  long" is not modelled either: no body exceeds its header's size.
  A short last body is modelled: `Close` fails with "missed writing" (`CloseError`).
- Transfer.Drain: a file's refusals are fixed for the whole run. A disk that fills up partway,
  accepting some writes and refusing later ones, is not modelled.
- A body the reader cuts short is written as far as it was read, and then its error ends the
  loop.
- Aliasing between inputs and the output is excluded by preconditions: `Standard`, `Apart`, and
  the footprint disjointness of the loops. The tool does not check for it; reading a file while
  writing it is left out.
- Symbolic links are not modelled: `os.Stat` reports the target's size under the path's base
  name.
- Commands.Add: does not state the final cursor and close count of standard input, or of the
  handles it opens on its arguments. It states the output's bytes and the error.
- Commands.Merge: does not state the final cursor and close count of standard input, or of the
  handles it opens on its arguments.
- Commands.Append: does not state the final cursor and close count of the handles it opens. It
  also does not state the output's bytes when the final close fails.
- Utils.GetSeekedTar: does not state the input handle's final cursor when sniffing fails. The
  model reads the whole input through the decoder even when the copy stops early on a write
  error, so it states that the input was read to its end only when `GetSeekedTar` succeeds.
- Commands.AddTo: does not state the output's bytes when a source or the close fails (the source
  leaves a partial output).
- Commands.MergeInto: does not state the output's bytes when a source or the close fails.
- Commands.AppendTo: does not state the output's bytes when a source or the close fails.
