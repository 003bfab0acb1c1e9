/**
 * The decision tables of utils/utils.go and the three commands: format hint to content type,
 * content type to decoder, content type and extension to "archive or plain file", and the
 * format flag to the output compressor.
 */
module Tables {
  import opened Base

  const GzipCT := "application/x-gzip"
  /** The type `http.DetectContentType` gives binary data; the tool takes it to mean an xz archive. */
  const TarCT := "application/octet-stream"
  /** Declared by the source and never produced by anything it calls. */
  const XzCT := "application/xz-compressed"

  /** `GetCTFromFormat`: only "gzip" names the gzip type; "xz", "none" and every other hint name the tar type. */
  function GetCTFromFormat(format: string): (ct: string)
    ensures ct == GzipCT <==> format == "gzip"
    ensures ct == TarCT <==> format != "gzip"
  {
    match format
    case "xz" => TarCT
    case "none" => TarCT
    case "gzip" => GzipCT
    case _ => TarCT
  }

  /** The decoder `NewCrdr` stacks on a file of content type ct; None is its "unknown file type" error. */
  function CrdrCodec(ct: string): (c: Option<Codec>)
    ensures c == Some(Gzip) <==> ct == GzipCT
    ensures c == Some(Xz) <==> ct == TarCT
    ensures c == None <==> ct != GzipCT && ct != TarCT
  {
    if ct == GzipCT then Some(Gzip)
    else if ct == TarCT then Some(Xz)
    else None
  }

  /** How `AddFile` treats a path. */
  datatype Treatment = AsArchive | AsPlainFile

  /** `AddFile`'s switch: gzip data, and tar-typed data named *.xz or *.tar, are archives; everything else is one plain file. */
  function AddFileTreatment(ct: string, ext: string): (t: Treatment)
    ensures t == AsArchive <==> ct == GzipCT || (ct == TarCT && (ext == ".xz" || ext == ".tar"))
  {
    if ct == GzipCT then AsArchive
    else if ct == TarCT then (if ext != ".xz" && ext != ".tar" then AsPlainFile else AsArchive)
    else AsPlainFile
  }

  /** The decoder `GetSeekedTar` copies through: gzip for gzip data, xz for tar-typed data named *.xz, none otherwise. */
  function SeekedCodec(ct: string, ext: string): (c: Option<Codec>)
    ensures c == Some(Gzip) <==> ct == GzipCT
    ensures c == Some(Xz) <==> ct == TarCT && ext == ".xz"
  {
    if ct == GzipCT then Some(Gzip)
    else if ct == TarCT then (if ext != ".xz" then None else Some(Xz))
    else None
  }

  /** The compressor `add` and `append` put on the output: xz, gzip, or none for any other format. */
  function OutputCodec(format: string): (c: Option<Codec>)
    ensures c == Some(Xz) <==> format == "xz"
    ensures c == Some(Gzip) <==> format == "gzip"
  {
    match format
    case "xz" => Some(Xz)
    case "gzip" => Some(Gzip)
    case _ => None
  }

  /** What `merge` puts on the output. */
  datatype MergeOutput = Raw | Compressed(codec: Codec) | Unavailable

  /** `merge`'s switch: without compression the output is raw; with it, xz or gzip, and any other format is an error. */
  function MergeCodec(compress: bool, format: string): (m: MergeOutput)
    ensures m == Raw <==> !compress
    ensures m == Unavailable <==> compress && format != "xz" && format != "gzip"
    ensures m.Compressed? ==> Some(m.codec) == OutputCodec(format)
  {
    if !compress then Raw
    else match format
      case "xz" => Compressed(Xz)
      case "gzip" => Compressed(Gzip)
      case _ => Unavailable
  }

  /** Every format hint leads `GetReader` to a decoder: a hint never reaches the "unknown file type" error, and "none" still decodes as xz. */
  lemma HintAlwaysDecodes(format: string)
    ensures CrdrCodec(GetCTFromFormat(format)).Some?
    ensures format != "gzip" ==> CrdrCodec(GetCTFromFormat(format)) == Some(Xz)
  {
  }

  /** A file sniffed as binary and named *.tar is an archive to `AddFile`, which then reads it through the xz decoder. */
  lemma TarFileGoesThroughXz()
    ensures AddFileTreatment(TarCT, ".tar") == AsArchive && CrdrCodec(TarCT) == Some(Xz)
    ensures SeekedCodec(TarCT, ".tar") == None
  {
  }

  /** The text `merge` looks for in a stdin error to skip stdin. */
  predicate SkipsStdin(e: Error)
  {
    Contains(Text(e), "empty")
  }

  /** `GetReader`'s nil-file error is the one `merge` skips. */
  lemma {:induction false} NilInputIsSkipped()
    ensures SkipsStdin(NilInput)
  {
    assert Text(NilInput) == "file input is " + "empty";
    ContainsSuffix("file input is ", "empty");
  }

  /** End of file on stdin is not skipped: `merge` then fails. */
  lemma {:induction false} EndOfFileIsNotSkipped()
    ensures !SkipsStdin(EndOfFile)
  {
  }
}
