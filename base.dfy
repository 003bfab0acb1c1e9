/** Bytes, optional values and the errors the tool reports, with the text Go prints for each. */
module Base {

  newtype byte = x: int | 0 <= x < 256

  datatype Option<+T> = None | Some(value: T)

  /** The file operations the operating system may refuse. */
  datatype Op = OpOpen | OpStat | OpRead | OpWrite | OpSeek | OpClose

  /** The two compression formats the tool reads and writes. */
  datatype Codec = Gzip | Xz

  function OpName(op: Op): string
  {
    match op
    case OpOpen => "open"
    case OpStat => "stat"
    case OpRead => "read"
    case OpWrite => "write"
    case OpSeek => "seek"
    case OpClose => "close"
  }

  /** Every error the modelled code can return. */
  datatype Error =
    | NilInput                                        // GetReader on a nil file
    | EndOfFile                                       // io.EOF
    | PathError(op: Op, path: string, reason: Reason) // *os.PathError
    | CodecError(message: string)                     // reported by the gzip, xz or tar codec
    | UnknownType(path: string, ct: string)           // NewCrdr on a content type it has no decoder for
    | Opening(path: string, cause: Error)             // GetReader's wrapping of a NewCrdr failure
    | WriteAfterClose                                 // tar or compressed writer used after Close
    | NoArguments                                     // a command called without positional arguments
    | NoOutput                                        // --output ""
    | OpenOutput(path: string, cause: Error)          // the output could not be created
    | FormatUnavailable(format: string)               // merge: compression requested in an unknown format
    | EmptyInput                                      // append: no --input and stdin empty
    | MergeFailed(source: string, cause: Error)       // a source of a command failed
    | CloseFailed(cause: Error)                       // finalising the tar or compressed writer failed
    | MissedWriting(owed: nat)                        // tar writer flushed with part of an entry's body still owed

  /** Why the operating system refused an operation: the cases the tool itself provokes, or a fault of the file. */
  datatype Reason = Closed | Missing | Invalid | BadDescriptor | Fault(text: string)

  function ReasonText(r: Reason): string
  {
    match r
    case Closed => "file already closed"
    case Missing => "no such file or directory"
    case Invalid => "invalid argument"
    case BadDescriptor => "bad file descriptor"
    case Fault(text) => text
  }

  /** The message `err.Error()` yields in the source. */
  function Text(e: Error): string
  {
    match e
    case NilInput => "file input is empty"
    case EndOfFile => "EOF"
    case PathError(op, path, reason) => OpName(op) + " " + path + ": " + ReasonText(reason)
    case CodecError(message) => message
    case UnknownType(path, ct) => path + " is an unknown file type (unknow " + ct + ")"
    case Opening(path, cause) => "error opening " + path + " " + Text(cause)
    case WriteAfterClose => "archive/tar: write after close"
    case NoArguments => "arguments need it"
    case NoOutput => "missing output file, -h/--help to see how to use the command"
    case OpenOutput(path, cause) => "failed to open " + path + ": " + Text(cause)
    case FormatUnavailable(format) => "compression format not available: " + format
    case EmptyInput => "input can't be empty"
    case MergeFailed(source, cause) => "failed to merge " + source + ": " + Text(cause)
    case CloseFailed(cause) => "failed to close compressed writer, " + Text(cause)
    case MissedWriting(owed) => "archive/tar: missed writing " + Decimal(owed) + " bytes"
  }

  /** `%d`: n in decimal, without leading zeros. */
  function Decimal(n: nat): (s: string)
    ensures s != [] && (forall i :: 0 <= i < |s| ==> '0' <= s[i] <= '9') && (n > 0 ==> s[0] != '0')
  {
    if n < 10 then [('0' as int + n) as char] else Decimal(n / 10) + [('0' as int + n % 10) as char]
  }

  /** w occurs in s starting at index i. */
  predicate OccursAt(s: string, w: string, i: int)
  {
    0 <= i <= |s| - |w| && s[i..i + |w|] == w
  }

  /** `strings.Contains(s, w)`: w occurs somewhere in s. */
  predicate Contains(s: string, w: string)
  {
    exists i | 0 <= i <= |s| - |w| :: OccursAt(s, w, i)
  }

  /** A string contains each of its suffixes. */
  lemma ContainsSuffix(a: string, w: string)
    ensures Contains(a + w, w)
  {
    assert (a + w)[|a|..|a| + |w|] == w;
    assert OccursAt(a + w, w, |a|);
  }

  function Zeros(n: nat): (z: seq<byte>)
    ensures |z| == n && forall i :: 0 <= i < n ==> z[i] == 0
  {
    seq(n, _ => 0)
  }

  function Min(a: nat, b: nat): nat { if a <= b then a else b }
}
