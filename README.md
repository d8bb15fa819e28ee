# node-zip native core in Dafny

This project models the sequential C++ core of node-zip, a Node.js binding to
the minizip-ng archive engine, and proves what that core promises:

- `ZipReader` (module `ZipReader`) opens an archive and builds its entry table
  with one scan. It also answers `exists`, `count`, `item` and `entries`, and
  extracts entries with `extractAs`, `extractTo`, `extractAll` and `readFile`.
- `ZipWriter` (module `ZipWriter`) is a two-state writer. It has a guarded
  `create`, an idempotent `close`, three add calls, and the `ZipDir` helper.
- `ZipException` and the move-only engine handle owners (module `ZipCommon`).
  The exception message has a fixed format. Every engine handle has at most
  one owner and is deleted once.
- The path helpers `dirname`, `basename`, `isAbs`, `path_join` and the
  right-folding `join` (module `FsUtil`). They take the platform as a
  parameter: `/` or `\` as separator, and a leading `/` or any `:` as the
  absolute-path test.
- The bounded C-string routines `strlcpy`, `strlcat` and their `wchar_t`
  twins, plus `startsWith` and `endsWith` (module `StrUtil`). The copy
  routines are in-place loops over an `array`. They are written once, generic
  in the cell type, and proved against specification functions of the old
  buffer.

The minizip engine is an oracle (module `MzEngine`).

- A `ReaderOracle` and a `WriterOracle` hold the answer of each engine call
  as a function of its arguments: locate, save, get-info, path compare,
  wildcard compare, the attribute tests, open-file and the three adds.
- The scan that `open` performs is an `OpenScript`: the open and goto-first
  codes, then one (get-info, goto-next) pair per round.
- Saves made by the reader and every call the writer makes on the archive
  are appended to a ghost log. Creating and deleting the engine handle are
  not in that log; `ZipCommon.HandlePool` models them on their own. Contracts
  therefore state which saves and which writer calls happen, with which
  arguments, and in which order. The reader's locate, get-info, set-password
  and close calls are not logged; their answers come from the oracle.

A thrown `ZipException` becomes the `Err` case of a `Result`. The wall clock
`time(NULL)` used by `addBuffer` is the parameter `now`.

Four behaviours of the C++ code worth knowing:

- `exists` calls the engine's path compare with ignore-case 1, so the match
  is whatever that compare says, not a case-sensitive comparison.
- `open` stores the engine's `comment_size` in the entry's compressed-size
  field (zip_reader.cc:52). The model keeps that mapping.
- `create` enables AES whether or not a password is given.
- A successful `open` never yields an empty table: get-info runs once even
  when goto-first answers END_OF_LIST, so a zero-entry archive either fails
  on get-info or records one entry (`ZipReader.OpenOutcomeTable`).

`ZipException` is the datatype `ZipException(code, text)`. `What` formats it
as "zip error: {text} code: {code}". In the C++ the constructor stores that
formatted string and `what()` returns it; nothing else writes it, so the two
representations are observably the same.

## Model

| member | source | states |
|---|---|---|
| MzEngine.OrEmpty | native/zip_reader.cc:51 | a null C string is read as "", any other as itself |
| MzEngine.OrNull | native/zip_writer.cc:52 | an empty string is passed as null, and only an empty one |
| MzEngine.OrEmptyOrNull | native/zip_writer.cc:72 | passing a string as possibly-null and reading it back gives the string back; null and "" read back alike |
| ZipCommon.NatToDecimal | native/zip_common.cc:8 | the decimal form of a code is a non-empty digit string with no leading zero |
| ZipCommon.IntToDecimal | native/zip_common.cc:8 | a code prints with a leading '-' exactly when it is negative |
| ZipCommon.Digit | native/zip_common.cc:8 | each printed digit is a decimal digit character for its value |
| ZipCommon.NegativeDecimal | native/zip_common.cc:8 | a negative code prints as '-' followed by the digits of its magnitude and parses back to the code |
| ZipCommon.ParseNatToDecimal | native/zip_common.cc:8 | the digits printed for n parse back to n |
| ZipCommon.DecimalRoundTrip | native/zip_common.cc:8 | the printed code, sign included, parses back to the code |
| ZipCommon.What | native/zip_common.h:18 | what() is longer than the fixed prefix, the caller's text and the separator together |
| ZipCommon.ExceptionMessageParts | native/zip_common.cc:7-8 | the message is "zip error: ", then the caller's text verbatim, then " code: ", then digits that parse back to the stored code |
| ZipCommon.OpenErrorMessage | native/zip_common.cc:8 | an MZ_OPEN_ERROR exception's message ends with "code: -111" |
| ZipCommon.HandlePool.constructor | native/zip_common.h:27 | the engine allocator starts with no live and no deleted handle |
| ZipCommon.HandlePool.Create | native/zip_common.h:27 | creating yields a fresh live handle, never one deleted before and numbered in creation order, or null when the engine cannot allocate |
| ZipCommon.HandlePool.Delete | native/zip_common.h:30 | deleting removes a live handle and logs it once |
| ZipCommon.MzHandle.constructor | native/zip_common.h:27 | a new owner holds a freshly created handle, the next in creation order, or null |
| ZipCommon.MzHandle.Move | native/zip_common.h:37-38 | move construction takes the other's handle and leaves the other null, deleting nothing |
| ZipCommon.MzHandle.Release | native/zip_common.h:28-32 | the destructor deletes the held handle exactly when it is not null, and the owner is then empty |
| ZipCommon.MzHandle.MoveAssign | native/zip_common.h:40-51 | only owners of the same kind, reader or writer, are assigned; a self-move changes nothing; otherwise the held handle is deleted if there is one, the other's handle is taken and the other is left null |
| ZipCommon.MoveAssignThenDestroyBoth | native/zip_common.h:28-51 | move-assigning one owner into another of the same kind and destroying both deletes the overwritten owner's handle first and then the moved one, each exactly once, and neither stays live |
| ZipCommon.MoveAssignFreshOwners | native/zip_common.h:27-51 | two freshly created owners meet those preconditions: the handle created first (number next) and then the second (next + 1) are deleted in that order and the live set is as before |
| ZipCommon.MoveThenDestroyBoth | native/zip_common.h:28-38 | moving a handle to a second owner and destroying both owners deletes that handle exactly once |
| FsUtil.PathSep | native/fs_util.cc:159-163 | path_sep: '\\' on Windows and '/' elsewhere; PathJoinShape states how path_join uses it |
| FsUtil.FindLastSep | native/fs_util.cc:136 | find_last_of("/\\") gives the position of a separator with none after it, or npos when there is none |
| FsUtil.FindFirst | native/fs_util.cc:153 | find_first_of(c) gives the first position of c, or npos when c does not occur |
| FsUtil.Dirname | native/fs_util.cc:135-141 | with no separator the path is returned unchanged; otherwise the result is the strictly shorter prefix before the last separator |
| FsUtil.Basename | native/fs_util.cc:143-149 | with no separator the path is returned unchanged; otherwise the suffix after the last separator; the result never holds a separator |
| FsUtil.DirnameBasenameSplit | native/fs_util.cc:135-149 | a path with a separator is its dirname, that separator and its basename |
| FsUtil.IsAbsMeaning | native/fs_util.cc:151-157 | on POSIX absolute means non-empty with a leading '/'; on Windows it means some ':' occurs |
| FsUtil.IsAbs | native/fs_util.cc:151-157 | isAbs; its meaning on each platform is stated by IsAbsMeaning |
| FsUtil.PathJoin | native/fs_util.cc:165-171 | path_join; its branches and the ends-with-p2 property are stated by PathJoinShape |
| FsUtil.Join | native/fs_util.h:19-27 | the variadic join folded from the right with path_join; JoinEndsWithLast and JoinAbsoluteLast state its properties |
| FsUtil.PathJoinShape | native/fs_util.cc:165-171 | p2 alone when p1 is empty or p2 is absolute; p1 ++ p2 when p1 ends with the separator; p1 ++ sep ++ p2 otherwise; the result always ends with p2 and starts with p1 when p1 is kept |
| FsUtil.JoinEndsWithLast | native/fs_util.h:19-27 | the right-folded join always ends with its last argument |
| FsUtil.JoinAbsoluteLast | native/fs_util.h:24-27 | when the last argument is absolute, join returns exactly that argument |
| StrUtil.StrLen | native/str_util.cc:26-30 | strlen is an index inside the buffer that holds a terminator |
| StrUtil.StrLenFirst | native/str_util.cc:26-30 | no cell before strlen is a terminator, so strlen is the first one |
| StrUtil.StrLenAt | native/str_util.cc:26-30 | any terminator with none before it is where strlen stops |
| StrUtil.SplicedAt | native/str_util.cc:16-28 | a buffer rewritten from position at with m cells of src and a terminator keeps its length and the cells outside that range |
| StrUtil.SplicedParts | native/str_util.cc:68-75 | such a buffer keeps its prefix before at, holds src's first m cells from at on, then the terminator, and keeps every later cell |
| StrUtil.SplicedStrLen | native/str_util.cc:26-28 | when neither the kept prefix nor the copied cells hold a terminator, the rewritten buffer's string length within siz cells is at + m |
| StrUtil.LcpyResultIsTruncatedCopy | native/str_util.cc:16-28 | after strlcpy the buffer keeps its size and its cells from siz on; siz 0 changes nothing; otherwise it holds the first min(strlen(src), siz-1) cells of src as a terminated string |
| StrUtil.LcpyFinalBuffer | native/str_util.cc:16-28 | the buffer the copy loop leaves, src's first k cells, a terminator at k and the old cells after it, is the one LcpyResult describes |
| StrUtil.Lcpy | native/str_util.cc:11-31 | the copy loop returns strlen(src) and leaves exactly the buffer LcpyResult describes |
| StrUtil.Strlcpy | native/str_util.cc:11-31 | strlcpy on char cells: returns strlen(src) and leaves the truncated, terminated copy |
| StrUtil.Wstrlcpy | native/str_util.cc:33-53 | wstrlcpy on wchar_t cells keeps the same contract |
| StrUtil.BoundedLength | native/str_util.cc:61-63 | the first loop of strlcat finds the length of dst without looking past siz cells, siz when there is no terminator there |
| StrUtil.LcatWithoutTerminator | native/str_util.cc:62-66 | with no terminator in the first siz cells strlcat leaves dst unchanged and returns siz + strlen(src) |
| StrUtil.TerminatedWithin | native/str_util.cc:61-63 | a terminator at dlen < siz with none before it makes dlen the string length within the first siz cells |
| StrUtil.LcatResultTerminated | native/str_util.cc:68-75 | when dst is terminated within siz cells, strlcat writes src's longest fitting prefix and a terminator from the old end on |
| StrUtil.LcatIsTruncatedAppend | native/str_util.cc:68-75 | otherwise the old string is kept, then the longest prefix of src that fits a total of siz-1 cells, then a terminator; cells from siz on are unchanged |
| StrUtil.LcatLengthTerminated | native/str_util.cc:77 | when dst is terminated within siz cells, strlcat returns its old length plus strlen(src) |
| StrUtil.LcatFinalBuffer | native/str_util.cc:68-77 | the buffer the append loop leaves is the one LcatResult describes, and the value returned is the old length plus strlen(src) |
| StrUtil.Lcat | native/str_util.cc:55-78 | the two loops of strlcat return LcatLength and leave exactly the buffer LcatResult describes |
| StrUtil.Strlcat | native/str_util.cc:55-78 | strlcat on char cells keeps that contract |
| StrUtil.Wstrlcat | native/str_util.cc:80-103 | wstrlcat on wchar_t cells keeps that contract |
| StrUtil.Find | native/str_util.h:36 | std::string::find returns the first occurrence at or after pos, or npos when there is none |
| StrUtil.StartsWith | native/str_util.h:34-40 | startsWith holds exactly when sub is a prefix of s, so always for an empty sub |
| StrUtil.EndsWith | native/str_util.h:52-63 | endsWith compares the last size(sub) characters; EndsWithIffSuffix states its meaning |
| StrUtil.EndsWithIffSuffix | native/str_util.h:52-63 | endsWith holds exactly when s is some string followed by sub, so always for an empty sub and never for a longer sub |
| ZipReader.EntryOf | native/zip_reader.cc:49-62 | an entry keeps the engine's name; a null linkname or comment becomes ""; is_encrypted is the ENCRYPTED flag bit; the compressed-size slot receives the comment size |
| ZipReader.EntriesOf | native/zip_reader.cc:43-68 | the scan records one entry per round, in scan order |
| ZipReader.OpenOutcomeTable | native/zip_reader.cc:37-71 | a successful open yields one entry per get-info, in order, so at least one; get-info runs even when goto-first answered END_OF_LIST, and its failure then fails the open |
| ZipReader.DestinationIsJoin | native/zip_reader.cc:91 | extractTo saves to join(outDir, filename) |
| ZipReader.Takes | native/zip_reader.cc:98-99 | extractAll's pattern test: an empty pattern takes every entry, otherwise the wildcard compare with ignore-case 1 must answer 0; the step lemmas below state its effect |
| ZipReader.ExtractAllTakenStep | native/zip_reader.cc:98-103 | for a taken entry extractAll appends extractTo's saves, stops with its exception or adds one when it returned true |
| ZipReader.ExtractAllSkippedStep | native/zip_reader.cc:98-99 | an entry the pattern does not take changes nothing |
| ZipReader.ExtractAllAbortSticks | native/zip_reader.cc:97-104 | after the first exception no later entry changes the outcome or the saves |
| ZipReader.ExtractAllNoFailure | native/zip_reader.cc:97-104 | a count means every taken entry so far was extracted without an exception |
| ZipReader.ExtractAllCounts | native/zip_reader.cc:94-106 | the count is the number of entries both taken by the pattern and extracted with result true, so it is at most count() |
| ZipReader.ExtractedSetStep | native/zip_reader.cc:100-102 | an entry joins the extracted set exactly when it is taken and extractTo returns true for it |
| ZipReader.ExtractAllFirstError | native/zip_reader.cc:97-104 | an exception is the one thrown by the first taken entry whose extraction failed, after every earlier taken entry succeeded |
| ZipReader.FillBuffer | native/zip_reader.cc:141-147 | the data is exactly uncompressed_size characters long and begins with what the engine wrote |
| ZipReader.ZipReader.constructor | native/zip_reader.h:56-58 | a default reader is not open, has no password and an empty table |
| ZipReader.ZipReader.FromFile | native/zip_reader.cc:12 | constructing from a file either throws open's exception or yields an open reader with an empty password and the scanned table |
| ZipReader.ZipReader.Destroy | native/zip_reader.cc:14 | the destructor closes the reader and the engine archive |
| ZipReader.ZipReader.Close | native/zip_reader.cc:16-21 | close leaves the reader and the engine closed whatever the state before, so a second close is a no-op; the table is kept |
| ZipReader.ZipReader.Open | native/zip_reader.cc:23-76 | the password is stored first and kept even on failure; the table is replaced and the reader opens only when the scan ends with END_OF_LIST; any error throws its message and leaves the reader closed with its old table |
| ZipReader.ZipReader.IsOpen | native/zip_reader.h:41 | is_open() reports the is_open_ field |
| ZipReader.ZipReader.Count | native/zip_reader.h:45 | count() equals the length of the table |
| ZipReader.ZipReader.Item | native/zip_reader.h:46 | item(i) is entry i, for i below count() |
| ZipReader.ZipReader.Entries | native/zip_reader.h:47 | entries() is the whole table in stored order |
| ZipReader.ZipReader.NameMatches | native/zip_reader.cc:80 | the find_if test of exists: equal length and path compare with ignore-case 1 answers 0; Exists states how it decides the result |
| ZipReader.ZipReader.Exists | native/zip_reader.cc:78-82 | exists(n) is true exactly when some entry has a name of n's length that path compare with ignore-case 1 calls equal |
| ZipReader.ZipReader.SetPassword | native/zip_reader.cc:84-87 | setPassword changes the stored and the engine password and neither the table nor the open state |
| ZipReader.ZipReader.ExtractAs | native/zip_reader.cc:108-123 | locate END_OF_LIST returns false with no save; another locate error throws "entry not found"; a save error throws "save entry failed"; otherwise true after one save to newname |
| ZipReader.ZipReader.ExtractTo | native/zip_reader.cc:89-92 | extractTo is extractAs to the joined destination |
| ZipReader.ZipReader.ExtractAll | native/zip_reader.cc:94-106 | the result and the saves are those of handling the entries in table order, as the lemmas above characterise |
| ZipReader.ZipReader.ReadFile | native/zip_reader.cc:125-149 | the engine password is set first; END_OF_LIST returns false with data untouched; locate, info and save errors throw with data untouched; on success data is exactly the uncompressed_size characters saved |
| ZipWriter.ArchiveOpenAfterOther | native/zip_writer.cc:49-84 | an add call never changes whether the engine archive is open |
| ZipWriter.ArchiveOpenAfterOpen | native/zip_writer.cc:33-38 | after an open call, and any adds, the archive is open exactly when that open answered MZ_OK |
| ZipWriter.IncludePath | native/zip_writer.cc:53 | addDir passes include-path 1 exactly for an empty root path, 0 otherwise |
| ZipWriter.AddDirCall | native/zip_writer.cc:51-53 | addDir passes the directory, root null with include-path 1 for an empty root path or the root itself with 0, and recursive unchanged |
| ZipWriter.AddFileCall | native/zip_writer.cc:61-62 | addFile passes the path, and a null stored name exactly when newname is empty |
| ZipWriter.BufferEntryInfo | native/zip_writer.cc:70-77 | the entry info is zero except for the name, the comment (null exactly when empty), the time, the version made by, DEFLATE, AES version 1 and the UTF-8 flag |
| ZipWriter.AddOutcome | native/zip_writer.cc:54-57 | an add returns true on MZ_OK and otherwise throws with the engine's code and the given text |
| ZipWriter.ZipWriter.constructor | native/zip_writer.h:25 | a default writer is not open, has no password and has made no call on the archive |
| ZipWriter.ZipWriter.WithFile | native/zip_writer.cc:18-20 | constructing from a file makes the calls of create on a closed writer and is open exactly when the engine open succeeded |
| ZipWriter.ZipWriter.IsOpen | native/zip_writer.h:35 | is_open() reports the is_open_ field |
| ZipWriter.ZipWriter.Create | native/zip_writer.cc:22-39 | on an open writer create returns false and changes nothing; otherwise it stores the password, sets it on the engine, enables AES, then opens, and is open exactly when the open answered MZ_OK; is_open_ keeps matching the engine |
| ZipWriter.ZipWriter.Close | native/zip_writer.cc:41-47 | close always returns true and leaves the writer closed; it calls the engine close only when open, so a second close makes no call |
| ZipWriter.ZipWriter.AddDir | native/zip_writer.cc:49-58 | addDir makes one add-path call with the arguments above, whatever the open state, and returns true or throws "Error adding path to archive" |
| ZipWriter.ZipWriter.AddFile | native/zip_writer.cc:60-67 | addFile makes one add-file call, whatever the open state, and returns true or throws "Error adding path to archive" |
| ZipWriter.ZipWriter.AddBuffer | native/zip_writer.cc:69-84 | addBuffer makes one add-buffer call with the bytes and the entry info above, whatever the open state, and returns true or throws "Error adding data to archive" |
| ZipWriter.ZipDir | native/zip_writer.cc:9-16 | ZipDir returns false when the archive cannot be created, and otherwise what addDir(dir, "") returns: a recursive add with root null and include-path 1 |

## Left out

- Worker threads, promises, the reader mutex and all N-API marshalling: they are concurrency and glue, not part of this model.
- The fs_util functions that touch the file system (`make_dirs`, `file_exits`, `directory_exists`, `copy_file` and the `_mkdirs` helpers): file system I/O.
- `u8strdup`, `Utf16ToUtf8` and `Utf8ToUtf16`: thin wrappers over Win32 conversion calls.
- `util::tolower` and `startsWithCaseInsensitive`: `tolower` writes through an empty string's iterator, which is undefined behaviour, so there is nothing definite to model.
- The minizip engine itself (DEFLATE, AES, locate, save, compare): its answers are oracle functions. An answer depends only on the call's arguments, so the model cannot express an engine whose answer to the same call changes over time.
- `~ZipWriter` is declared in zip_writer.h but defined in no source file, so it is not part of this model.
- ZipReader and ZipWriter own their engine handle through `MzReaderHandle`/`MzWriterHandle`. The model checks the handle owners on their own, in `ZipCommon.MzHandle`, and does not link them to the reader or writer objects.
- Engine handles are pointers in the C++. The model numbers them in creation order, so that scenarios can say which handle was created first; the numbering stands for handle identity and carries no other meaning.
- ZipCommon.MzHandle.MoveAssign: requires that two distinct owners never hold the same handle. Single ownership is the invariant being modelled, so the precondition states it, rather than the pool deriving it.
- ZipReader.ZipReader.Open: the scan is given as a finite script of engine answers ending in a stopping round. An archive whose goto-next never stops is not modelled.
- Entry sizes are `nat`. The C++ fields are `int64_t` and `size_t`, and negative or wrapped values are not modelled.
- A Dafny `string` stands for a C++ `std::string` holding one `char` per byte. Lengths are byte counts, as in the size comparison of `exists` (zip_reader.cc:80) and in `find_last_of`; multi-byte UTF-8 characters are not decoded.
- The buffer length in `FileInfo` is the length of its byte sequence. A `len` that disagrees with the buffer is not modelled.
- `strlcpy` and the other C-string routines take `src` as a sequence apart from the `dst` array, so overlapping buffers are not modelled. They are compiled only on Windows, where `wchar_t` is 16 bits wide; this is the width the model uses.
- The debug-build `assert(!is_open_)` in `create` is left out. The model follows the release build, which returns false.
- `MZ_VERSION_MADEBY` depends on the host system, so it is a field of the writer oracle.
- ZipCommon.What: its own contract only bounds the length. The exact format is stated by ZipCommon.ExceptionMessageParts.
