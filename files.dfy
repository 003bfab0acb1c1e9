/**
 * The part of the operating system the tool touches: files as byte sequences (inodes), open
 * handles with a cursor and a count of Close calls, and a directory from paths to inodes.
 * Which operations the operating system refuses on a file, and with what reason, is part of
 * the file (`faults`).
 */
module Files {
  import opened Base
  import opened Paths
  import opened Archive

  /** A file's contents and the operations the operating system refuses on it. */
  class Inode {
    var data: seq<byte>
    const faults: map<Op, string>

    constructor (data: seq<byte>, faults: map<Op, string>)
      ensures this.data == data && this.faults == faults
    {
      this.data := data;
      this.faults := faults;
    }
  }

  /** What a file holding d holds after b is written at offset p (a gap past the end reads as zeros). */
  function Overwrite(d: seq<byte>, p: nat, b: seq<byte>): (r: seq<byte>)
    ensures |r| == if b == [] || p + |b| <= |d| then |d| else p + |b|
  {
    if b == [] then d
    else (if p <= |d| then d[..p] else d + Zeros(p - |d|)) + b + (if p + |b| < |d| then d[p + |b|..] else [])
  }

  /** Byte by byte: b where it was written, d elsewhere, zeros in a gap. */
  lemma OverwriteIndex(d: seq<byte>, p: nat, b: seq<byte>, i: nat)
    requires b != [] && i < |Overwrite(d, p, b)|
    ensures Overwrite(d, p, b)[i] == if p <= i < p + |b| then b[i - p] else if i < |d| then d[i] else 0
  {
    var pre := if p <= |d| then d[..p] else d + Zeros(p - |d|);
    var post := if p + |b| < |d| then d[p + |b|..] else [];
    var r := pre + b + post;
    assert Overwrite(d, p, b) == r;
    assert |pre| == p;
    if i < p {
      assert r[i] == pre[i];
    } else if i < p + |b| {
      assert r[i] == b[i - p];
    } else {
      assert r[i] == post[i - p - |b|];
    }
  }

  /** `OverwriteTwice` at one index. */
  lemma OverwriteTwiceAt(d: seq<byte>, p: nat, a: seq<byte>, b: seq<byte>, i: nat)
    requires a != [] && b != [] && i < |Overwrite(Overwrite(d, p, a), p + |a|, b)|
    requires i < |Overwrite(d, p, a + b)|
    ensures Overwrite(Overwrite(d, p, a), p + |a|, b)[i] == Overwrite(d, p, a + b)[i]
  {
    var r1 := Overwrite(d, p, a);
    OverwriteIndex(r1, p + |a|, b, i);
    OverwriteIndex(d, p, a + b, i);
    if i < |r1| {
      OverwriteIndex(d, p, a, i);
    }
  }

  /** Two writes at consecutive offsets leave what one write of both leaves. */
  lemma OverwriteTwice(d: seq<byte>, p: nat, a: seq<byte>, b: seq<byte>)
    ensures Overwrite(Overwrite(d, p, a), p + |a|, b) == Overwrite(d, p, a + b)
  {
    if a != [] && b != [] {
      var lhs := Overwrite(Overwrite(d, p, a), p + |a|, b);
      var rhs := Overwrite(d, p, a + b);
      assert |lhs| == |rhs|;
      forall i | 0 <= i < |lhs| ensures lhs[i] == rhs[i] {
        OverwriteTwiceAt(d, p, a, b, i);
      }
    } else if a == [] {
      assert a + b == b;
    }
  }

  /** The error the operating system answers op with on a file named name with the given faults, opened writable or not, after closes calls to Close. */
  function Refused(name: string, faults: map<Op, string>, writable: bool, closes: nat, op: Op): (r: Option<Error>)
    ensures closes > 0 ==> r == Some(PathError(op, name, Closed))
    ensures r.None? <==> closes == 0 && op !in faults && (op == OpWrite ==> writable)
  {
    if closes > 0 then Some(PathError(op, name, Closed))
    else if op in faults then Some(PathError(op, name, Fault(faults[op])))
    else if op == OpWrite && !writable then Some(PathError(op, name, BadDescriptor))
    else None
  }

  /** Everything an operation can observe of an open file, as a value. */
  datatype FileState = FileState(name: string, faults: map<Op, string>, writable: bool, data: seq<byte>, pos: nat, closes: nat)
  {
    function Refusal(op: Op): Option<Error>
    {
      Refused(name, faults, writable, closes, op)
    }

    function Remaining(): seq<byte>
    {
      if pos <= |data| then data[pos..] else []
    }
  }

  /** An open file: `*os.File`. */
  class Handle {
    const name: string
    const node: Inode
    const writable: bool
    var pos: nat
    var closes: nat

    constructor (name: string, node: Inode, writable: bool)
      ensures this.name == name && this.node == node && this.writable == writable
      ensures pos == 0 && closes == 0
    {
      this.name := name;
      this.node := node;
      this.writable := writable;
      pos := 0;
      closes := 0;
    }

    /** The error the operating system answers op with on this handle, if any. */
    function Refusal(op: Op): (r: Option<Error>)
      reads this
      ensures closes > 0 ==> r == Some(PathError(op, name, Closed))
      ensures r.None? <==> closes == 0 && op !in node.faults && (op == OpWrite ==> writable)
    {
      Refused(name, node.faults, writable, closes, op)
    }

    /** This handle's state as a value. */
    ghost function State(): (s: FileState)
      reads this, node
      ensures forall op :: s.Refusal(op) == Refusal(op)
      ensures s.Remaining() == Remaining() && s.name == name && s.data == node.data && s.pos == pos
    {
      FileState(name, node.faults, writable, node.data, pos, closes)
    }

    /** The bytes from the cursor to the end of the file. */
    function Remaining(): (r: seq<byte>)
      reads this, node
      ensures pos <= |node.data| ==> |r| == |node.data| - pos
    {
      if pos <= |node.data| then node.data[pos..] else []
    }

    /** `Close`: counts the call; a second call fails. */
    method Close() returns (err: Option<Error>)
      modifies this`closes
      ensures closes == old(closes) + 1
      ensures err == old(Refusal(OpClose))
    {
      err := Refusal(OpClose);
      closes := closes + 1;
    }

    /** `Stat`: the base name of the path the file was opened by, and its size. */
    method Stat() returns (fi: FileInfo, err: Option<Error>)
      ensures err == Refusal(OpStat)
      ensures fi == FileInfo(BaseName(name), |node.data|)
    {
      err := Refusal(OpStat);
      fi := FileInfo(BaseName(name), |node.data|);
    }

    /** `Read` into a buffer of n bytes: at most n bytes from the cursor, `io.EOF` when none are left. */
    method Read(n: nat) returns (bytes: seq<byte>, err: Option<Error>)
      requires n > 0
      modifies this`pos
      ensures err == if old(Refusal(OpRead)).Some? then old(Refusal(OpRead))
                     else if old(Remaining()) == [] then Some(EndOfFile) else None
      ensures err.None? ==> bytes == old(Remaining())[..Min(n, |old(Remaining())|)]
      ensures err.None? ==> pos == old(pos) + |bytes| && bytes != []
      ensures err.Some? ==> bytes == [] && pos == old(pos)
    {
      err := Refusal(OpRead);
      bytes := [];
      if err.None? {
        var rest := Remaining();
        if rest == [] {
          err := Some(EndOfFile);
        } else {
          bytes := rest[..Min(n, |rest|)];
          pos := pos + |bytes|;
        }
      }
    }

    /** Reading to the end, as `io.Copy` does: everything from the cursor; the end of the file is not an error. */
    method ReadAll() returns (bytes: seq<byte>, err: Option<Error>)
      modifies this`pos
      ensures err == old(Refusal(OpRead))
      ensures err.None? ==> bytes == old(Remaining()) && pos == old(pos) + |bytes|
      ensures err.Some? ==> bytes == [] && pos == old(pos)
    {
      err := Refusal(OpRead);
      bytes := [];
      if err.None? {
        bytes := Remaining();
        pos := pos + |bytes|;
      }
    }

    /** `Seek(offset, io.SeekStart)` or, when fromEnd, `Seek(offset, io.SeekEnd)`; a negative target is refused. */
    method Seek(offset: int, fromEnd: bool) returns (err: Option<Error>)
      modifies this`pos
      ensures var target := if fromEnd then |node.data| + offset else offset;
              err == if old(Refusal(OpSeek)).Some? then old(Refusal(OpSeek))
                     else if target < 0 then Some(PathError(OpSeek, name, Invalid)) else None
      ensures err.None? ==> pos == if fromEnd then |node.data| + offset else offset
      ensures err.Some? ==> pos == old(pos)
    {
      err := Refusal(OpSeek);
      if err.None? {
        var target := if fromEnd then |node.data| + offset else offset;
        if target < 0 {
          err := Some(PathError(OpSeek, name, Invalid));
        } else {
          pos := target;
        }
      }
    }

    /** `Write`: b overwrites the file from the cursor, which moves past it. */
    method Write(b: seq<byte>) returns (err: Option<Error>)
      modifies this`pos, node`data
      ensures err == old(Refusal(OpWrite))
      ensures err.None? ==> node.data == Overwrite(old(node.data), old(pos), b) && pos == old(pos) + |b|
      ensures err.Some? ==> node.data == old(node.data) && pos == old(pos)
    {
      err := Refusal(OpWrite);
      if err.None? {
        node.data := Overwrite(node.data, pos, b);
        pos := pos + |b|;
      }
    }
  }

  /** The directory of named files. */
  class FileSystem {
    var files: map<string, Inode>

    constructor (files: map<string, Inode>)
      ensures this.files == files
    {
      this.files := files;
    }

    /** The error opening path meets, if any. */
    function OpenRefusal(path: string): (r: Option<Error>)
      reads this
      ensures r.None? <==> path != "" && path in files && OpOpen !in files[path].faults
    {
      if path == "" || path !in files then Some(PathError(OpOpen, path, Missing))
      else if OpOpen in files[path].faults then Some(PathError(OpOpen, path, Fault(files[path].faults[OpOpen])))
      else None
    }

    /** The error `os.Create(path)` meets, if any: an empty path names nothing, and an existing file may refuse to be opened. */
    function CreateRefusal(path: string): (r: Option<Error>)
      reads this
      ensures r.None? <==> path != "" && (path in files ==> OpOpen !in files[path].faults)
    {
      if path == "" then Some(PathError(OpOpen, path, Missing))
      else if path in files && OpOpen in files[path].faults then Some(PathError(OpOpen, path, Fault(files[path].faults[OpOpen])))
      else None
    }

    /** The inode a path names, as a set. */
    function Target(path: string): set<Inode>
      reads this
    {
      if path in files then {files[path]} else {}
    }

    /** The error `os.Stat(path)` returns, if any. */
    function StatRefusal(path: string): (r: Option<Error>)
      reads this
      ensures r.None? <==> path != "" && path in files && OpStat !in files[path].faults
      ensures path == "" || path !in files ==> r == Some(PathError(OpStat, path, Missing))
    {
      if path == "" || path !in files then Some(PathError(OpStat, path, Missing))
      else if OpStat in files[path].faults then Some(PathError(OpStat, path, Fault(files[path].faults[OpStat])))
      else None
    }

    /** What `os.Stat(path)` reports on an existing file: its base name and size. */
    function Stat(path: string): (fi: FileInfo)
      requires path in files
      reads this, files[path]
    {
      FileInfo(BaseName(path), |files[path].data|)
    }

    /** `os.Open(path)`: a fresh read-only handle at offset 0. */
    method Open(path: string) returns (h: Handle?, err: Option<Error>)
      ensures err == OpenRefusal(path)
      ensures err.Some? <==> h == null
      ensures h != null ==> fresh(h) && h.node == files[path] && h.name == path && !h.writable
      ensures h != null ==> h.pos == 0 && h.closes == 0
    {
      err := OpenRefusal(path);
      h := null;
      if err.None? {
        h := new Handle(path, files[path], false);
      }
    }

    /** `os.OpenFile(path, os.O_RDWR, ...)`: a fresh read-write handle at offset 0 on an existing file. */
    method OpenReadWrite(path: string) returns (h: Handle?, err: Option<Error>)
      ensures err == OpenRefusal(path)
      ensures err.Some? <==> h == null
      ensures h != null ==> fresh(h) && h.node == files[path] && h.name == path && h.writable
      ensures h != null ==> h.pos == 0 && h.closes == 0
    {
      err := OpenRefusal(path);
      h := null;
      if err.None? {
        h := new Handle(path, files[path], true);
      }
    }

    /** `os.Create(path)`: an existing file is truncated, a missing one is made; the handle is read-write at offset 0. */
    method Create(path: string) returns (h: Handle?, err: Option<Error>)
      modifies this, Target(path)
      ensures err.Some? <==> h == null
      ensures err == old(CreateRefusal(path))
      ensures err.Some? ==> files == old(files) && unchanged(Target(path))
      ensures err.None? ==> path in files && files[path].data == [] && files == old(files)[path := files[path]]
      ensures err.None? && path in old(files) ==> files[path] == old(files)[path]
      ensures err.None? && path !in old(files) ==> fresh(files[path]) && files[path].faults == map[]
      ensures h != null ==> fresh(h) && h.node == files[path] && h.name == path && h.writable
      ensures h != null ==> h.pos == 0 && h.closes == 0
    {
      h := null;
      if path == "" {
        err := Some(PathError(OpOpen, path, Missing));
      } else if path in files && OpOpen in files[path].faults {
        err := Some(PathError(OpOpen, path, Fault(files[path].faults[OpOpen])));
      } else {
        err := None;
        var node: Inode;
        if path in files {
          node := files[path];
          node.data := [];
        } else {
          node := new Inode([], map[]);
          files := files[path := node];
        }
        h := new Handle(path, node, true);
      }
    }
  }
}
