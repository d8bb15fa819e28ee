/**
 * ZipReader: an archive opened for reading, with the table of its entries
 * built by one scan at open time. Engine calls are answered by a
 * ReaderOracle (per-entry calls) and an OpenScript (the scan of `open`).
 */
module ZipReader {
  import opened Wrappers
  import opened MzEngine
  import opened ZipCommon
  import FsUtil

  /** One entry of the table, in the library's own record. */
  datatype ZipEntry = ZipEntry(
    name: string,
    linkname: string,
    compressedSize: nat,
    uncompressedSize: nat,
    isEncrypted: bool,
    isDirectory: bool,
    isSymlink: bool,
    crc: bv32,
    comment: string,
    modifiedDate: int,
    accessedDate: int,
    creationDate: int)

  /** The ZipEntry that `open` records for one engine file-info. The
      compressed-size slot is filled from the engine's comment size
      (zip_reader.cc:52). */
  function EntryOf(eng: ReaderOracle, fi: MzFileInfo): (e: ZipEntry)
    ensures e.name == fi.filename
    ensures fi.linkname.None? ==> e.linkname == ""
    ensures fi.comment.None? ==> e.comment == ""
    ensures e.isEncrypted <==> fi.flag & ZipFlagEncrypted == ZipFlagEncrypted
    ensures e.compressedSize == fi.commentSize && e.uncompressedSize == fi.uncompressedSize
  {
    ZipEntry(
      fi.filename,
      OrEmpty(fi.linkname),
      fi.commentSize,
      fi.uncompressedSize,
      fi.flag & ZipFlagEncrypted == ZipFlagEncrypted,
      eng.attribIsDir(fi.externalFa, fi.versionMadeBy) == MzOk,
      eng.attribIsSymlink(fi.externalFa, fi.versionMadeBy) == MzOk,
      fi.crc,
      OrEmpty(fi.comment),
      fi.modifiedDate,
      fi.accessedDate,
      fi.creationDate)
  }

  /** The entries recorded for a run of scan rounds, one per round, in order. */
  function EntriesOf(eng: ReaderOracle, steps: seq<ScanStep>): (es: seq<ZipEntry>)
    ensures |es| == |steps|
    ensures forall i :: 0 <= i < |steps| ==> es[i] == EntryOf(eng, steps[i].info)
  {
    seq(|steps|, i requires 0 <= i < |steps| => EntryOf(eng, steps[i].info))
  }

  /** What `open` ends with, as decided by the engine's answers: an open
      failure, a goto-first failure other than END_OF_LIST, the code of the
      round that stopped the scan, or the whole table when the last round's
      goto-next says END_OF_LIST. */
  function OpenOutcome(eng: ReaderOracle, script: OpenScript): Result<seq<ZipEntry>>
    requires FiniteScan(script.steps)
  {
    var steps := script.steps;
    var last := steps[|steps| - 1];
    if script.openCode != MzOk then Err(ZipException(script.openCode, "opening archive failed"))
    else if script.firstCode != MzOk && script.firstCode != MzEndOfList then
      Err(ZipException(script.firstCode, "read archive failed"))
    else if last.infoCode != MzOk then Err(ZipException(last.infoCode, "read entry info failed"))
    else if last.nextCode != MzEndOfList then Err(ZipException(last.nextCode, "read entry info failed"))
    else Ok(EntriesOf(eng, steps))
  }

  /** A successful open yields one entry per round, in scan order; and the
      first get-info is made even when goto-first reported END_OF_LIST, so
      its failure fails the open then too. */
  lemma OpenOutcomeTable(eng: ReaderOracle, script: OpenScript)
    requires FiniteScan(script.steps)
    ensures OpenOutcome(eng, script).Ok? ==>
      var es := OpenOutcome(eng, script).value;
      && script.openCode == MzOk
      && |es| == |script.steps| >= 1
      && (forall i :: 0 <= i < |es| ==> es[i] == EntryOf(eng, script.steps[i].info))
    ensures script.openCode == MzOk && script.firstCode == MzEndOfList && script.steps[0].infoCode != MzOk ==>
      OpenOutcome(eng, script) == Err(ZipException(script.steps[0].infoCode, "read entry info failed"))
  {
  }

  /** An `extract` save record: the entry name and what it was saved to. */
  datatype SaveCall = SaveFile(name: string, path: string) | SaveBuffer(name: string, len: nat)

  /** What extractAs(filename, newname) returns, by the engine's answers:
      false when locate says END_OF_LIST, a throw for any other locate or
      save failure, true otherwise. */
  function ExtractAsOutcome(eng: ReaderOracle, password: string, filename: string, newname: string): Result<bool>
  {
    var c := eng.locate(filename);
    if c == MzEndOfList then Ok(false)
    else if c != MzOk then Err(ZipException(c, "entry not found"))
    else
      var sc := eng.saveFile(filename, newname, password);
      if sc != MzOk then Err(ZipException(sc, "save entry failed")) else Ok(true)
  }

  /** The saves extractAs makes: one exactly when the entry was located. */
  function ExtractAsSaves(eng: ReaderOracle, filename: string, newname: string): seq<SaveCall> {
    if eng.locate(filename) == MzOk then [SaveFile(filename, newname)] else []
  }

  /** Where extractTo(name, outDir) saves: fs_util::join(outDir, name),
      which is path_join(outDir, name). */
  function Destination(plat: FsUtil.Platform, outDir: string, name: string): string {
    FsUtil.PathJoin(plat, outDir, name)
  }

  lemma DestinationIsJoin(plat: FsUtil.Platform, outDir: string, name: string)
    ensures Destination(plat, outDir, name) == FsUtil.Join(plat, [outDir, name])
  {
    assert [outDir, name][1..] == [name];
  }

  /** What extractAll(outDir, pattern) works with: the engine, the password
      it holds, the platform and the two arguments. */
  datatype ExtractJob = ExtractJob(eng: ReaderOracle, password: string, plat: FsUtil.Platform,
                                   outDir: string, pattern: string)

  /** An empty pattern takes every entry, otherwise the engine's wildcard
      compare (ignoring case) decides. */
  predicate Takes(job: ExtractJob, name: string) {
    |job.pattern| == 0 || job.eng.wildcardCompare(name, job.pattern, 1) == 0
  }

  /** What extractTo(name, outDir) returns. */
  function Attempt(job: ExtractJob, name: string): Result<bool> {
    ExtractAsOutcome(job.eng, job.password, name, Destination(job.plat, job.outDir, name))
  }

  /** The saves extractTo(name, outDir) makes. */
  function SavesOf(job: ExtractJob, name: string): seq<SaveCall> {
    ExtractAsSaves(job.eng, name, Destination(job.plat, job.outDir, name))
  }

  datatype Progress = Progress(outcome: Result<nat>, saves: seq<SaveCall>)

  /** extractAll's handling of one entry: nothing after an exception or for
      an entry not taken; otherwise extractTo, counting a true result. */
  function Advance(job: ExtractJob, p: Progress, name: string): Progress {
    if p.outcome.Err? || !Takes(job, name) then p
    else
      var saves := p.saves + SavesOf(job, name);
      match Attempt(job, name)
      case Err(x) => Progress(Err(x), saves)
      case Ok(b) => Progress(Ok(p.outcome.value + if b then 1 else 0), saves)
  }

  /** extractAll after the first k entries: the count so far, or the first
      exception, and the saves made. */
  function ExtractAllUpTo(job: ExtractJob, es: seq<ZipEntry>, k: nat): Progress
    requires k <= |es|
    decreases k
  {
    if k == 0 then Progress(Ok(0), [])
    else Advance(job, ExtractAllUpTo(job, es, k - 1), es[k - 1].name)
  }

  /** An entry extractAll takes and extractTo saves, returning true. */
  predicate Extracted(job: ExtractJob, name: string) {
    Takes(job, name) && Attempt(job, name) == Ok(true)
  }

  /** The entries before index k that are taken and extracted with result true. */
  function ExtractedSet(job: ExtractJob, es: seq<ZipEntry>, k: nat): set<nat>
    requires k <= |es|
  {
    set i: nat | i < k && Extracted(job, es[i].name)
  }

  /** One step of extractAll over a taken entry, before any exception:
      extractTo's saves are appended and its result decides the outcome. */
  lemma ExtractAllTakenStep(job: ExtractJob, es: seq<ZipEntry>, i: nat)
    requires i < |es| && ExtractAllUpTo(job, es, i).outcome.Ok? && Takes(job, es[i].name)
    ensures var p := ExtractAllUpTo(job, es, i); var q := ExtractAllUpTo(job, es, i + 1);
      var a := Attempt(job, es[i].name);
      && q.saves == p.saves + SavesOf(job, es[i].name)
      && (a.Err? ==> q.outcome == Err(a.error))
      && (a.Ok? ==> q.outcome == Ok(p.outcome.value + if a.value then 1 else 0))
  {
  }

  /** One step of extractAll over an entry that is not taken changes nothing. */
  lemma ExtractAllSkippedStep(job: ExtractJob, es: seq<ZipEntry>, i: nat)
    requires i < |es| && !Takes(job, es[i].name)
    ensures ExtractAllUpTo(job, es, i + 1) == ExtractAllUpTo(job, es, i)
  {
  }

  /** Once an exception is thrown nothing more happens: the outcome and the
      saves stay as they were for every longer prefix. */
  lemma {:induction false} ExtractAllAbortSticks(job: ExtractJob, es: seq<ZipEntry>, k: nat, m: nat)
    requires k <= m <= |es|
    requires ExtractAllUpTo(job, es, k).outcome.Err?
    ensures ExtractAllUpTo(job, es, m) == ExtractAllUpTo(job, es, k)
    decreases m - k
  {
    if k < m {
      ExtractAllAbortSticks(job, es, k, m - 1);
    }
  }

  /** A count means every taken entry so far was extracted without an exception. */
  lemma {:induction false} ExtractAllNoFailure(job: ExtractJob, es: seq<ZipEntry>, k: nat)
    requires k <= |es|
    requires ExtractAllUpTo(job, es, k).outcome.Ok?
    ensures forall i :: 0 <= i < k && Takes(job, es[i].name) ==> Attempt(job, es[i].name).Ok?
  {
    if k > 0 {
      ExtractAllNoFailure(job, es, k - 1);
    }
  }

  /** A count from extractAll is the number of entries that were both taken
      and extracted with result true, so it is at most the number of entries. */
  lemma {:induction false} ExtractAllCounts(job: ExtractJob, es: seq<ZipEntry>, k: nat)
    requires k <= |es|
    requires ExtractAllUpTo(job, es, k).outcome.Ok?
    ensures ExtractAllUpTo(job, es, k).outcome.value == |ExtractedSet(job, es, k)|
    ensures ExtractAllUpTo(job, es, k).outcome.value <= k
  {
    if k == 0 {
      assert ExtractedSet(job, es, k) == {};
    } else {
      ExtractAllCounts(job, es, k - 1);
      ExtractedSetStep(job, es, k);
      SubsetOfRange(ExtractedSet(job, es, k), k);
    }
  }

  /** Entry k - 1 joins the extracted set exactly when it is extracted. */
  lemma ExtractedSetStep(job: ExtractJob, es: seq<ZipEntry>, k: nat)
    requires 0 < k <= |es|
    ensures ExtractedSet(job, es, k)
      == ExtractedSet(job, es, k - 1) + if Extracted(job, es[k - 1].name) then {k - 1} else {}
  {
  }

  lemma {:induction false} SubsetOfRange(s: set<nat>, k: nat)
    requires forall i :: i in s ==> i < k
    ensures |s| <= k
    decreases k
  {
    if k > 0 {
      SubsetOfRange(s - {k - 1}, k - 1);
    } else {
      assert s == {};
    }
  }

  /** An exception from extractAll is the one the first failing taken entry
      threw, after every taken entry before it was extracted without one. */
  lemma {:induction false} ExtractAllFirstError(job: ExtractJob, es: seq<ZipEntry>, k: nat)
    requires k <= |es|
    requires ExtractAllUpTo(job, es, k).outcome.Err?
    ensures exists i :: 0 <= i < k && FirstFailure(job, es, i, ExtractAllUpTo(job, es, k).outcome.error)
  {
    var p := ExtractAllUpTo(job, es, k - 1);
    if p.outcome.Err? {
      ExtractAllFirstError(job, es, k - 1);
    } else {
      ExtractAllNoFailure(job, es, k - 1);
      assert FirstFailure(job, es, k - 1, ExtractAllUpTo(job, es, k).outcome.error);
    }
  }

  /** Entry i is the first taken entry whose extraction threw, and it threw x. */
  predicate FirstFailure(job: ExtractJob, es: seq<ZipEntry>, i: nat, x: ZipException)
    requires i < |es|
  {
    && Takes(job, es[i].name) && Attempt(job, es[i].name) == Err(x)
    && forall j :: 0 <= j < i && Takes(job, es[j].name) ==> Attempt(job, es[j].name).Ok?
  }

  /** The buffer readFile fills: `len` cells, zero-initialised, with what the
      engine wrote at the front. */
  function FillBuffer(written: string, len: nat): (buf: string)
    ensures |buf| == len
    ensures forall i :: 0 <= i < len && i < |written| ==> buf[i] == written[i]
  {
    seq(len, i requires 0 <= i < len => if i < |written| then written[i] else 0 as char)
  }

  class ZipReader {
    const platform: FsUtil.Platform
    var isOpen: bool
    var password: string
    var entries: seq<ZipEntry>
    /** mz_zip_reader_is_open(reader_) == MZ_OK */
    var engineOpen: bool
    /** The password last given to the engine handle. */
    var enginePassword: string
    /** Every save call made on the engine, in order. */
    ghost var saves: seq<SaveCall>

    /** ZipReader() = default: not open, no entries. */
    constructor (platform: FsUtil.Platform)
      ensures this.platform == platform
      ensures !isOpen && entries == [] && password == ""
      ensures !engineOpen && enginePassword == "" && saves == []
    {
      this.platform := platform;
      isOpen, password, entries := false, "", [];
      engineOpen, enginePassword, saves := false, "", [];
    }

    /** ZipReader(filename): a default reader on which open(filename, "") is
        called; an exception there means there is no reader. */
    static method FromFile(platform: FsUtil.Platform, filename: string, eng: ReaderOracle, script: OpenScript)
      returns (r: Result<ZipReader>)
      requires FiniteScan(script.steps)
      ensures OpenOutcome(eng, script).Err? ==> r == Err(OpenOutcome(eng, script).error)
      ensures OpenOutcome(eng, script).Ok? ==>
        && r.Ok? && fresh(r.value) && r.value.isOpen && r.value.password == ""
        && r.value.entries == OpenOutcome(eng, script).value
    {
      var reader := new ZipReader(platform);
      var outcome := reader.Open(filename, "", eng, script);
      if outcome.Err? {
        return Err(outcome.error);
      }
      return Ok(reader);
    }

    /** The destructor: close(). */
    method Destroy()
      modifies this`isOpen, this`engineOpen
      ensures !isOpen && !engineOpen
    {
      Close();
    }

    /** close(): marks the reader closed and closes the engine archive if it
        is open; closing twice changes nothing more. Entries are kept. */
    method Close()
      modifies this`isOpen, this`engineOpen
      ensures !isOpen && !engineOpen
    {
      isOpen := false;
      if engineOpen {
        engineOpen := false;
      }
    }

    /** open(filename, password): closes, stores the password, opens the
        archive and scans it; the table and `isOpen` change only when the
        scan ends with END_OF_LIST. */
    method Open(filename: string, pw: string, eng: ReaderOracle, script: OpenScript) returns (r: Result<bool>)
      requires FiniteScan(script.steps)
      modifies this`isOpen, this`engineOpen, this`password, this`enginePassword, this`entries
      ensures password == pw && enginePassword == pw
      ensures engineOpen <==> script.openCode == MzOk
      ensures OpenOutcome(eng, script).Ok? ==>
        r == Ok(true) && isOpen && entries == OpenOutcome(eng, script).value
      ensures OpenOutcome(eng, script).Err? ==>
        r == Err(OpenOutcome(eng, script).error) && !isOpen && entries == old(entries)
    {
      var steps := script.steps;
      var files: seq<ZipEntry> := [];
      Close();
      password := pw;
      enginePassword := password;
      var err := script.openCode;
      if err != MzOk {
        return Err(ZipException(err, "opening archive failed"));
      }
      engineOpen := true;
      err := script.firstCode;
      if err != MzOk && err != MzEndOfList {
        return Err(ZipException(err, "read archive failed"));
      }
      // Scan: one get-info per round, at least one round, then goto-next.
      var i := 0;
      while true
        invariant 0 <= i < |steps|
        invariant files == EntriesOf(eng, steps[..i])
        invariant !isOpen && entries == old(entries)
        invariant password == pw && enginePassword == pw && engineOpen
        decreases |steps| - i
      {
        var st := steps[i];
        err := st.infoCode;
        if err != MzOk {
          return Err(ZipException(err, "read entry info failed"));
        }
        files := files + [EntryOf(eng, st.info)];
        err := st.nextCode;
        if err != MzOk && err != MzEndOfList {
          return Err(ZipException(err, "read entry info failed"));
        }
        if err != MzOk {
          break;
        }
        i := i + 1;
      }
      // open throws here unless err is END_OF_LIST; the loop only
      // leaves with END_OF_LIST, so that throw is dead.
      assert err == MzEndOfList && i == |steps| - 1;
      assert steps[..i + 1] == steps;
      entries := files;
      isOpen := true;
      return Ok(true);
    }

    /** is_open() */
    function IsOpen(): (b: bool)
      reads this
      ensures b == isOpen
    {
      isOpen
    }

    /** count() is the size of the table. */
    function Count(): (n: nat)
      reads this
      ensures n == |entries|
    {
      |entries|
    }

    /** item(index): unchecked indexing, so the index must be below count(). */
    function Item(index: nat): (e: ZipEntry)
      reads this
      requires index < Count()
      ensures e == entries[index]
    {
      entries[index]
    }

    /** entries(): the whole table in scan order. */
    function Entries(): (es: seq<ZipEntry>)
      reads this
      ensures es == entries && |es| == Count()
    {
      entries
    }

    /** An entry `exists` accepts for `filename`: same length, and equal by
        the engine's path compare called with ignore-case 1. */
    predicate NameMatches(eng: ReaderOracle, name: string, filename: string) {
      |name| == |filename| && eng.pathCompare(name, filename, 1) == 0
    }

    /** exists(filename): a linear search of the table. */
    method Exists(filename: string, eng: ReaderOracle) returns (found: bool)
      ensures found <==> exists i :: 0 <= i < |entries| && NameMatches(eng, entries[i].name, filename)
    {
      var i := 0;
      while i < |entries|
        invariant 0 <= i <= |entries|
        invariant forall j :: 0 <= j < i ==> !NameMatches(eng, entries[j].name, filename)
      {
        if NameMatches(eng, entries[i].name, filename) {
          return true;
        }
        i := i + 1;
      }
      return false;
    }

    /** setPassword: replaces the stored and the engine password, nothing else. */
    method SetPassword(pw: string)
      modifies this`password, this`enginePassword
      ensures password == pw && enginePassword == pw
      ensures entries == old(entries) && isOpen == old(isOpen)
    {
      password := pw;
      enginePassword := password;
    }

    /** extractAs(filename, newname): locate the entry, then save it to `newname`. */
    method ExtractAs(filename: string, newname: string, eng: ReaderOracle) returns (r: Result<bool>)
      modifies this`saves
      ensures r == ExtractAsOutcome(eng, enginePassword, filename, newname)
      ensures saves == old(saves) + ExtractAsSaves(eng, filename, newname)
      ensures eng.locate(filename) == MzEndOfList ==> r == Ok(false)
      ensures eng.locate(filename) != MzEndOfList && eng.locate(filename) != MzOk ==>
        r == Err(ZipException(eng.locate(filename), "entry not found"))
    {
      var err := eng.locate(filename);
      if err == MzEndOfList {
        return Ok(false);
      }
      if err != MzOk {
        return Err(ZipException(err, "entry not found"));
      }
      err := eng.saveFile(filename, newname, enginePassword);
      saves := saves + [SaveFile(filename, newname)];
      if err != MzOk {
        return Err(ZipException(err, "save entry failed"));
      }
      return Ok(true);
    }

    /** extractTo(filename, outDir): extractAs to join(outDir, filename). */
    method ExtractTo(filename: string, outDir: string, eng: ReaderOracle) returns (r: Result<bool>)
      modifies this`saves
      ensures r == ExtractAsOutcome(eng, enginePassword, filename, Destination(platform, outDir, filename))
      ensures saves == old(saves) + ExtractAsSaves(eng, filename, Destination(platform, outDir, filename))
    {
      r := ExtractAs(filename, Destination(platform, outDir, filename), eng);
    }

    /** extractAll(outDir, pattern): extracts every taken entry in table
        order and counts those extracted; the first exception aborts it. */
    method ExtractAll(outDir: string, pattern: string, eng: ReaderOracle) returns (r: Result<nat>)
      modifies this`saves
      ensures var p := ExtractAllUpTo(ExtractJob(eng, enginePassword, platform, outDir, pattern), entries, |entries|);
        r == p.outcome && saves == old(saves) + p.saves
    {
      var es := entries;
      ghost var job := ExtractJob(eng, enginePassword, platform, outDir, pattern);
      var cnt := 0;
      var i := 0;
      while i < |es|
        invariant 0 <= i <= |es|
        invariant ExtractAllUpTo(job, es, i).outcome == Ok(cnt)
        invariant saves == old(saves) + ExtractAllUpTo(job, es, i).saves
      {
        var name := es[i].name;
        if |pattern| == 0 || eng.wildcardCompare(name, pattern, 1) == 0 {
          var x := ExtractTo(name, outDir, eng);
          assert x == Attempt(job, name);
          ExtractAllTakenStep(job, es, i);
          if x.Err? {
            ExtractAllAbortSticks(job, es, i + 1, |es|);
            return Err(x.error);
          }
          if x.value {
            cnt := cnt + 1;
          }
        } else {
          ExtractAllSkippedStep(job, es, i);
        }
        i := i + 1;
      }
      return Ok(cnt);
    }

    /** readFile(filename, data): sets the engine password, locates the
        entry, reads its info and saves it into a buffer of its uncompressed
        size; `data` is replaced only on success. */
    method ReadFile(filename: string, data: string, eng: ReaderOracle) returns (r: Result<bool>, out: string)
      modifies this`enginePassword, this`saves
      ensures enginePassword == password
      ensures var c := eng.locate(filename);
        && (c == MzEndOfList ==> r == Ok(false) && out == data && saves == old(saves))
        && (c != MzEndOfList && c != MzOk ==>
              r == Err(ZipException(c, "entry not found")) && out == data && saves == old(saves))
      ensures var info := eng.entryInfo(filename);
        eng.locate(filename) == MzOk && info.0 != MzOk ==>
          r == Err(ZipException(info.0, "read entry info failed")) && out == data && saves == old(saves)
      ensures var info := eng.entryInfo(filename);
        var len := info.1.uncompressedSize;
        var saved := eng.saveBuffer(filename, password, len);
        eng.locate(filename) == MzOk && info.0 == MzOk ==>
          && saves == old(saves) + [SaveBuffer(filename, len)]
          && (saved.0 != MzOk ==> r == Err(ZipException(saved.0, "read entry data failed")) && out == data)
          && (saved.0 == MzOk ==> r == Ok(true) && out == FillBuffer(saved.1, len))
    {
      out := data;
      enginePassword := password;
      var err := eng.locate(filename);
      if err == MzEndOfList {
        return Ok(false), out;
      }
      if err != MzOk {
        return Err(ZipException(err, "entry not found")), out;
      }
      var info := eng.entryInfo(filename);
      if info.0 != MzOk {
        return Err(ZipException(info.0, "read entry info failed")), out;
      }
      var len := info.1.uncompressedSize;
      var saved := eng.saveBuffer(filename, enginePassword, len);
      saves := saves + [SaveBuffer(filename, len)];
      if saved.0 != MzOk {
        return Err(ZipException(saved.0, "read entry data failed")), out;
      }
      out := FillBuffer(saved.1, len);
      return Ok(true), out;
    }
  }
}
