/**
 * The minizip engine as seen from this library: its return codes, the flag
 * bits and constants the library uses, the file-info record it exchanges,
 * and an oracle standing in for the calls whose work happens inside the
 * engine (path and wildcard comparison, attribute tests, locate and save).
 */
module MzEngine {
  import opened Wrappers

  newtype Int32 = x: int | -0x8000_0000 <= x < 0x8000_0000

  /** An engine return code. */
  type Code = Int32

  const MzOk: Code := 0
  const MzEndOfList: Code := -100
  const MzOpenError: Code := -111

  const ZipFlagEncrypted: bv16 := 1
  const ZipFlagUtf8: bv16 := 0x800
  const CompressMethodDeflate: int := 8

  /** The engine's `mz_zip_file` entry record (the fields this library uses).
      A null `char*` is None. */
  datatype MzFileInfo = MzFileInfo(
    filename: string,
    linkname: Option<string>,
    comment: Option<string>,
    commentSize: nat,
    compressedSize: nat,
    uncompressedSize: nat,
    flag: bv16,
    compressionMethod: int,
    aesVersion: int,
    versionMadeBy: int,
    externalFa: bv32,
    crc: bv32,
    modifiedDate: int,
    accessedDate: int,
    creationDate: int)

  /** A `mz_zip_file` filled with zeros, as `mz_zip_file file_info = {0}`. */
  const ZeroFileInfo: MzFileInfo :=
    MzFileInfo("", None, None, 0, 0, 0, 0, 0, 0, 0, 0, 0, 0, 0, 0)

  /** `p ? p : ""`: how the library reads a C string that may be null. */
  function OrEmpty(p: Option<string>): (s: string)
    ensures p.None? ==> s == ""
    ensures p.Some? ==> s == p.value
  {
    match p
    case None => ""
    case Some(v) => v
  }

  /** `s.empty() ? NULL : s.c_str()`: how the library passes an optional
      string to the engine. */
  function OrNull(s: string): (p: Option<string>)
    ensures p.None? <==> s == ""
  {
    if s == "" then None else Some(s)
  }

  /** Passing a string as optional and reading it back loses nothing; a
      null and an empty string read back alike. */
  lemma OrEmptyOrNull(s: string, p: Option<string>)
    ensures OrEmpty(OrNull(s)) == s
    ensures OrNull(OrEmpty(p)) == (if p == Some("") then None else p)
  {
  }

  /** Answers of the read-side engine calls, as functions of their arguments.
      `password` is the password last set on the engine handle. */
  datatype ReaderOracle = ReaderOracle(
    // mz_zip_path_compare(a, b, ignore_case): 0 when equal
    pathCompare: (string, string, int) -> int,
    // mz_path_compare_wc(path, pattern, ignore_case): 0 when the pattern matches
    wildcardCompare: (string, string, int) -> int,
    // mz_zip_attrib_is_dir / mz_zip_attrib_is_symlink(external_fa, version_madeby)
    attribIsDir: (bv32, int) -> Code,
    attribIsSymlink: (bv32, int) -> Code,
    // mz_zip_reader_locate_entry(name, ignore_case = 0)
    locate: string -> Code,
    // mz_zip_reader_entry_get_info on the located entry
    entryInfo: string -> (Code, MzFileInfo),
    // mz_zip_reader_entry_save_file(path) on the located entry
    saveFile: (string, string, string) -> Code,
    // mz_zip_reader_entry_save_buffer(buf, len): the code and the bytes written
    saveBuffer: (string, string, nat) -> (Code, string))

  /** Answers of the write-side engine calls, as functions of their
      arguments, and the engine's host-dependent "version made by". */
  datatype WriterOracle = WriterOracle(
    // mz_zip_writer_open_file(path, disk_size = 0, append = 0)
    openFile: string -> Code,
    // mz_zip_writer_add_path(path, root_path, include_path, recursive)
    addPath: (string, Option<string>, int, bool) -> Code,
    // mz_zip_writer_add_file(path, filename_in_zip)
    addFile: (string, Option<string>) -> Code,
    // mz_zip_writer_add_buffer(buf, len, file_info)
    addBuffer: (seq<bv8>, MzFileInfo) -> Code,
    // MZ_VERSION_MADEBY
    versionMadeBy: int)

  /** One round of the entry scan in `open`: get-info, then goto-next. */
  datatype ScanStep = ScanStep(infoCode: Code, info: MzFileInfo, nextCode: Code)

  /** The engine's answers to one `open`: open-file, goto-first, then the scan. */
  datatype OpenScript = OpenScript(openCode: Code, firstCode: Code, steps: seq<ScanStep>)

  /** A round after which the scan loop does not go on. */
  predicate Stops(st: ScanStep) {
    st.infoCode != MzOk || st.nextCode != MzOk
  }

  /** The rounds a scan of a finite archive consumes: every round but the
      last continues, and the last one stops. */
  predicate FiniteScan(steps: seq<ScanStep>) {
    && |steps| > 0
    && Stops(steps[|steps| - 1])
    && forall i :: 0 <= i < |steps| - 1 ==> !Stops(steps[i])
  }
}
