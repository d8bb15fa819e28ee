/**
 * ZipWriter: an archive being written. It is open or not; `create` opens it
 * once, `close` closes it, and the add calls hand one path, file or buffer
 * to the engine each. Engine calls are answered by a WriterOracle and
 * recorded, in order, in a ghost log.
 */
module ZipWriter {
  import opened Wrappers
  import opened MzEngine
  import opened ZipCommon

  /** The library's `FileInfo`: the bytes of a buffer and its comment. The
      buffer length is the length of `data`. */
  datatype FileInfo = FileInfo(data: seq<bv8>, comment: string)

  /** One call made on the engine writer handle. */
  datatype WriterCall =
    | SetPassword(password: string)
    | SetAes(aes: int)
    | OpenFile(path: string)
    | CloseArchive
    | AddPath(path: string, root: Option<string>, includePath: int, recursive: bool)
    | AddFile(path: string, name: Option<string>)
    | AddBuffer(data: seq<bv8>, info: MzFileInfo)

  /** Whether the engine holds an open archive after the calls in `log`: the
      last open or close call decides, and an open succeeds when the engine
      says MZ_OK. */
  function ArchiveOpen(eng: WriterOracle, log: seq<WriterCall>): bool
    decreases |log|
  {
    if log == [] then false
    else
      match log[|log| - 1]
      case OpenFile(path) => eng.openFile(path) == MzOk
      case CloseArchive => false
      case _ => ArchiveOpen(eng, log[..|log| - 1])
  }

  /** A call other than open or close leaves the engine's archive state as it was. */
  lemma ArchiveOpenAfterOther(eng: WriterOracle, log: seq<WriterCall>, c: WriterCall)
    requires !c.OpenFile? && !c.CloseArchive?
    ensures ArchiveOpen(eng, log + [c]) == ArchiveOpen(eng, log)
  {
    assert (log + [c])[..|log|] == log;
  }

  /** After an open call the state is that open's answer, whatever came before. */
  lemma ArchiveOpenAfterOpen(eng: WriterOracle, log: seq<WriterCall>, path: string, tail: seq<WriterCall>)
    requires forall k :: 0 <= k < |tail| ==> !tail[k].OpenFile? && !tail[k].CloseArchive?
    ensures ArchiveOpen(eng, log + [OpenFile(path)] + tail) == (eng.openFile(path) == MzOk)
    decreases |tail|
  {
    if tail == [] {
      assert log + [OpenFile(path)] + tail == log + [OpenFile(path)];
    } else {
      var init := log + [OpenFile(path)] + tail[..|tail| - 1];
      assert log + [OpenFile(path)] + tail == init + [tail[|tail| - 1]];
      ArchiveOpenAfterOther(eng, init, tail[|tail| - 1]);
      ArchiveOpenAfterOpen(eng, log, path, tail[..|tail| - 1]);
    }
  }

  /** The include-path argument addDir passes: 1 for an empty root path. */
  function IncludePath(rootPath: string): (n: int)
    ensures n == 1 <==> rootPath == ""
    ensures n == 0 <==> rootPath != ""
  {
    if rootPath == "" then 1 else 0
  }

  /** The call addDir(dir, rootPath, recursive) makes. */
  function AddDirCall(dir: string, rootPath: string, recursive: bool): (c: WriterCall)
    ensures c.AddPath? && c.path == dir && c.recursive == recursive
    ensures c.root.None? <==> rootPath == ""
    ensures c.root.None? ==> c.includePath == 1
    ensures c.root.Some? ==> c.root.value == rootPath && c.includePath == 0
  {
    AddPath(dir, OrNull(rootPath), IncludePath(rootPath), recursive)
  }

  /** The call addFile(path, newname) makes: a null name for an empty one. */
  function AddFileCall(path: string, newname: string): (c: WriterCall)
    ensures c.AddFile? && c.path == path
    ensures c.name.None? <==> newname == ""
    ensures c.name.Some? ==> c.name.value == newname
  {
    AddFile(path, OrNull(newname))
  }

  /** The entry info addBuffer(name, buf) hands to the engine at time `now`:
      a zeroed record with the name, the comment (null when empty), the
      time, the engine's version-made-by, DEFLATE, AES version 1 and the
      UTF-8 flag. */
  function BufferEntryInfo(eng: WriterOracle, name: string, buf: FileInfo, now: int): (fi: MzFileInfo)
    ensures fi.filename == name
    ensures fi.comment.None? <==> buf.comment == ""
    ensures OrEmpty(fi.comment) == buf.comment
    ensures fi.modifiedDate == now && fi.versionMadeBy == eng.versionMadeBy
    ensures fi.compressionMethod == CompressMethodDeflate && fi.aesVersion == 1 && fi.flag == ZipFlagUtf8
    ensures fi.linkname.None? && fi.commentSize == 0 && fi.compressedSize == 0 && fi.uncompressedSize == 0
    ensures fi.externalFa == 0 && fi.crc == 0 && fi.accessedDate == 0 && fi.creationDate == 0
  {
    OrEmptyOrNull(buf.comment, None);
    ZeroFileInfo.(
      filename := name,
      comment := OrNull(buf.comment),
      modifiedDate := now,
      versionMadeBy := eng.versionMadeBy,
      compressionMethod := CompressMethodDeflate,
      aesVersion := 1,
      flag := ZipFlagUtf8)
  }

  /** An add call returns true on MZ_OK and throws with `text` otherwise. */
  function AddOutcome(code: Code, text: string): (r: Result<bool>)
    ensures r.Ok? <==> code == MzOk
    ensures r.Ok? ==> r.value
    ensures r.Err? ==> r.error.code == code && r.error.text == text
  {
    if code == MzOk then Ok(true) else Err(ZipException(code, text))
  }

  /** The engine's answer to an add call. */
  function AddCode(eng: WriterOracle, c: WriterCall): Code
    requires c.AddPath? || c.AddFile? || c.AddBuffer?
  {
    match c
    case AddPath(path, root, includePath, recursive) => eng.addPath(path, root, includePath, recursive)
    case AddFile(path, name) => eng.addFile(path, name)
    case AddBuffer(data, info) => eng.addBuffer(data, info)
  }

  class ZipWriter {
    var isOpen: bool
    var password: string
    /** Every call made on the engine writer handle, in order. */
    ghost var calls: seq<WriterCall>

    /** `is_open_` mirrors the engine: the archive is open exactly when the
        log says so. */
    ghost predicate Valid(eng: WriterOracle)
      reads this
    {
      isOpen == ArchiveOpen(eng, calls)
    }

    /** ZipWriter() = default: not open, no password, no engine call. */
    constructor ()
      ensures !isOpen && password == "" && calls == []
      ensures forall eng :: Valid(eng)
    {
      isOpen, password, calls := false, "", [];
    }

    /** ZipWriter(filename, password): a default writer on which create is called. */
    constructor WithFile(filename: string, pw: string, eng: WriterOracle)
      ensures password == pw
      ensures calls == [SetPassword(pw), SetAes(1), OpenFile(filename)]
      ensures isOpen <==> eng.openFile(filename) == MzOk
      ensures Valid(eng)
    {
      isOpen, password, calls := false, "", [];
      new;
      var _ := Create(filename, pw, eng);
    }

    /** is_open(). */
    function IsOpen(): (b: bool)
      reads this
      ensures b == isOpen
    {
      isOpen
    }

    /** create(filename, password): refused on an open writer; otherwise it
        stores the password, gives it to the engine, enables AES and opens
        the file, and is open exactly when the engine open succeeded. */
    method Create(filename: string, pw: string, eng: WriterOracle) returns (ok: bool)
      requires Valid(eng)
      modifies this`isOpen, this`password, this`calls
      ensures Valid(eng)
      ensures old(isOpen) ==> !ok && isOpen && password == old(password) && calls == old(calls)
      ensures !old(isOpen) ==>
        && password == pw
        && calls == old(calls) + [SetPassword(pw), SetAes(1), OpenFile(filename)]
        && (ok <==> eng.openFile(filename) == MzOk)
        && isOpen == ok
    {
      if isOpen {
        return false;
      }
      password := pw;
      calls := calls + [SetPassword(password)];
      calls := calls + [SetAes(1)];
      var err := eng.openFile(filename);
      calls := calls + [OpenFile(filename)];
      assert calls == old(calls) + [SetPassword(pw), SetAes(1)] + [OpenFile(filename)] + [];
      ArchiveOpenAfterOpen(eng, old(calls) + [SetPassword(pw), SetAes(1)], filename, []);
      if err != MzOk {
        return false;
      }
      isOpen := true;
      return true;
    }

    /** close(): always true; closes the engine archive only when open, so a
        second close makes no engine call. */
    method Close(ghost eng: WriterOracle) returns (ok: bool)
      requires Valid(eng)
      modifies this`isOpen, this`calls
      ensures Valid(eng)
      ensures ok && !isOpen && password == old(password)
      ensures old(isOpen) ==> calls == old(calls) + [CloseArchive]
      ensures !old(isOpen) ==> calls == old(calls)
    {
      if isOpen {
        isOpen := false;
        calls := calls + [CloseArchive];
      }
      return true;
    }

    /** addDir(dir, rootPath, recursive): one add-path call; the open state
        is not consulted. */
    method AddDir(dir: string, rootPath: string, recursive: bool, eng: WriterOracle) returns (r: Result<bool>)
      requires Valid(eng)
      modifies this`calls
      ensures Valid(eng)
      ensures calls == old(calls) + [AddDirCall(dir, rootPath, recursive)]
      ensures r == AddOutcome(AddCode(eng, AddDirCall(dir, rootPath, recursive)), "Error adding path to archive")
    {
      var root := if rootPath == "" then None else Some(rootPath);
      var incl := if rootPath == "" then 1 else 0;
      var err := eng.addPath(dir, root, incl, recursive);
      ArchiveOpenAfterOther(eng, calls, AddPath(dir, root, incl, recursive));
      calls := calls + [AddPath(dir, root, incl, recursive)];
      if err != MzOk {
        return Err(ZipException(err, "Error adding path to archive"));
      }
      return Ok(true);
    }

    /** addFile(path, newname): one add-file call, with a null name for an
        empty `newname`. */
    method AddFile(path: string, newname: string, eng: WriterOracle) returns (r: Result<bool>)
      requires Valid(eng)
      modifies this`calls
      ensures Valid(eng)
      ensures calls == old(calls) + [AddFileCall(path, newname)]
      ensures r == AddOutcome(AddCode(eng, AddFileCall(path, newname)), "Error adding path to archive")
    {
      var name := if newname == "" then None else Some(newname);
      var err := eng.addFile(path, name);
      ArchiveOpenAfterOther(eng, calls, WriterCall.AddFile(path, name));
      calls := calls + [WriterCall.AddFile(path, name)];
      if err != MzOk {
        return Err(ZipException(err, "Error adding path to archive"));
      }
      return Ok(true);
    }

    /** addBuffer(name, buf) at time `now`: one add-buffer call with the
        bytes and the entry info built for them. */
    method AddBuffer(name: string, buf: FileInfo, now: int, eng: WriterOracle) returns (r: Result<bool>)
      requires Valid(eng)
      modifies this`calls
      ensures Valid(eng)
      ensures calls == old(calls) + [WriterCall.AddBuffer(buf.data, BufferEntryInfo(eng, name, buf, now))]
      ensures r == AddOutcome(eng.addBuffer(buf.data, BufferEntryInfo(eng, name, buf, now)), "Error adding data to archive")
    {
      var info := ZeroFileInfo.(
        filename := name,
        comment := if buf.comment == "" then None else Some(buf.comment),
        modifiedDate := now,
        versionMadeBy := eng.versionMadeBy,
        compressionMethod := CompressMethodDeflate,
        aesVersion := 1,
        flag := ZipFlagUtf8);
      var err := eng.addBuffer(buf.data, info);
      ArchiveOpenAfterOther(eng, calls, WriterCall.AddBuffer(buf.data, info));
      calls := calls + [WriterCall.AddBuffer(buf.data, info)];
      if err != MzOk {
        return Err(ZipException(err, "Error adding data to archive"));
      }
      return Ok(true);
    }
  }

  /** ZipDir(dir, zipfile, password): false when the archive could not be
      created, otherwise what addDir(dir, "") returns, which adds `dir`
      recursively with its own path included. */
  method ZipDir(dir: string, zipfile: string, password: string, eng: WriterOracle) returns (r: Result<bool>)
    ensures eng.openFile(zipfile) != MzOk ==> r == Ok(false)
    ensures eng.openFile(zipfile) == MzOk ==>
      r == AddOutcome(eng.addPath(dir, None, 1, true), "Error adding path to archive")
  {
    var w := new ZipWriter.WithFile(zipfile, password, eng);
    if !w.IsOpen() {
      return Ok(false);
    }
    r := w.AddDir(dir, "", true, eng);
  }
}
