/**
 * ZipException (an engine code with a formatted message) and the move-only
 * wrappers that own an engine reader or writer handle.
 */
module ZipCommon {
  import opened Wrappers
  import opened MzEngine

  /** A ZipException: the engine code and the caller's text; what() formats
      the two into the message the exception carries. */
  datatype ZipException = ZipException(code: Code, text: string)

  /** What a call that may throw ZipException produces. */
  datatype Result<+T> = Ok(value: T) | Err(error: ZipException)

  predicate IsDigit(c: char) { '0' <= c <= '9' }

  predicate AllDigits(s: string) { forall i :: 0 <= i < |s| ==> IsDigit(s[i]) }

  /** Decimal digits of n, most significant first, no leading zeros. */
  function NatToDecimal(n: nat): (s: string)
    ensures |s| >= 1 && AllDigits(s)
    ensures |s| > 1 ==> s[0] != '0'
    decreases n
  {
    if n < 10 then [Digit(n)]
    else NatToDecimal(n / 10) + [Digit(n % 10)]
  }

  /** The character of a decimal digit. */
  function Digit(d: nat): (c: char)
    requires d < 10
    ensures IsDigit(c) && c as int - '0' as int == d
  {
    ('0' as int + d) as char
  }

  /** How fmt prints an int: a '-' before the digits of a negative value. */
  function IntToDecimal(i: int): (s: string)
    ensures |s| >= 1
    ensures i < 0 <==> s[0] == '-'
  {
    if i < 0 then "-" + NatToDecimal(-i) else NatToDecimal(i)
  }

  /** The value of a string of decimal digits. */
  function ParseNat(s: string): nat
    requires AllDigits(s)
  {
    if s == [] then 0
    else 10 * ParseNat(s[..|s| - 1]) + (s[|s| - 1] as int - '0' as int)
  }

  /** The value of an optionally negative decimal numeral. */
  function ParseInt(s: string): int
    requires |s| >= 1
    requires if s[0] == '-' then AllDigits(s[1..]) else AllDigits(s)
  {
    if s[0] == '-' then -(ParseNat(s[1..]) as int) else ParseNat(s)
  }

  lemma {:induction false} ParseNatToDecimal(n: nat)
    ensures ParseNat(NatToDecimal(n)) == n
  {
    if n >= 10 {
      var s := NatToDecimal(n);
      assert s[..|s| - 1] == NatToDecimal(n / 10);
      ParseNatToDecimal(n / 10);
    }
  }

  /** Printing a code in decimal loses nothing: it parses back to the code. */
  lemma DecimalRoundTrip(i: int)
    ensures var s := IntToDecimal(i);
      (if s[0] == '-' then AllDigits(s[1..]) else AllDigits(s)) && ParseInt(s) == i
  {
    if i < 0 {
      NegativeDecimal(-i);
    } else {
      ParseNatToDecimal(i);
    }
  }

  /** A negative value prints as '-' and the digits of its magnitude. */
  lemma NegativeDecimal(n: nat)
    requires n > 0
    ensures var s := IntToDecimal(-(n as int));
      s[0] == '-' && s[1..] == NatToDecimal(n) && ParseInt(s) == -(n as int)
  {
    var s := IntToDecimal(-(n as int));
    assert s[1..] == NatToDecimal(n);
    ParseNatToDecimal(n);
  }

  const MessagePrefix := "zip error: "
  const CodeSeparator := " code: "

  /** ZipException::what: "zip error: {text} code: {code}". */
  function What(e: ZipException): (m: string)
    ensures |m| > |MessagePrefix| + |e.text| + |CodeSeparator|
  {
    MessagePrefix + e.text + CodeSeparator + IntToDecimal(e.code as int)
  }

  /** The message starts with the fixed prefix, carries the caller's text
      verbatim, and its tail after " code: " reads back as the code. */
  lemma ExceptionMessageParts(code: Code, message: string)
    ensures var m := What(ZipException(code, message));
      var start := |MessagePrefix| + |message| + |CodeSeparator|;
      && m[..|MessagePrefix|] == MessagePrefix
      && m[|MessagePrefix|..|MessagePrefix| + |message|] == message
      && m[|MessagePrefix| + |message|..start] == CodeSeparator
      && start < |m|
      && var digits := m[start..];
         (if digits[0] == '-' then AllDigits(digits[1..]) else AllDigits(digits))
         && ParseInt(digits) == code as int
  {
    var m := What(ZipException(code, message));
    var start := |MessagePrefix| + |message| + |CodeSeparator|;
    assert m[start..] == IntToDecimal(code as int);
    DecimalRoundTrip(code as int);
  }

  /** Opening a missing archive fails with MZ_OPEN_ERROR, and the message then
      ends with "code: -111". */
  lemma OpenErrorMessage(message: string)
    ensures var m := What(ZipException(MzOpenError, message));
      |m| >= 10 && m[|m| - 10..] == "code: -111"
  {
    assert NatToDecimal(111) == "111" by {
      assert NatToDecimal(11) == "11" by { assert NatToDecimal(1) == "1"; }
    }
  }

  /** Whether an owner wraps a reader or a writer handle; MzReaderHandle and
      MzWriterHandle differ only in the create/delete calls they make. */
  datatype HandleKind = ReaderKind | WriterKind

  /** The engine's handle allocator: the handles alive now, and every delete
      in the order it happened. */
  class HandlePool {
    var live: set<nat>
    var next: nat
    ghost var deleted: seq<nat>

    ghost predicate Valid()
      reads this
    {
      && (forall h :: h in live ==> h < next)
      && (forall i :: 0 <= i < |deleted| ==> deleted[i] < next && deleted[i] !in live)
      && (forall i, j :: 0 <= i < j < |deleted| ==> deleted[i] != deleted[j])
    }

    constructor ()
      ensures Valid() && live == {} && deleted == []
    {
      live, next, deleted := {}, 0, [];
    }

    /** mz_zip_reader_create / mz_zip_writer_create: a new handle, or null
        when the engine cannot allocate one. */
    method Create(allocates: bool) returns (h: Option<nat>)
      requires Valid()
      modifies this
      ensures Valid() && deleted == old(deleted)
      ensures allocates ==> h.Some? && h.value !in old(live) && live == old(live) + {h.value}
      ensures allocates ==> h.value == old(next) && next == old(next) + 1
      ensures !allocates ==> h.None? && live == old(live) && next == old(next)
      ensures h.Some? ==> h.value !in deleted
    {
      if allocates {
        h := Some(next);
        live, next := live + {next}, next + 1;
      } else {
        h := None;
      }
    }

    /** mz_zip_reader_delete / mz_zip_writer_delete: only a live handle may be deleted. */
    method Delete(h: nat)
      requires Valid() && h in live
      modifies this
      ensures Valid()
      ensures live == old(live) - {h} && deleted == old(deleted) + [h]
    {
      live, deleted := live - {h}, deleted + [h];
    }
  }

  /** MzReaderHandle / MzWriterHandle: owns at most one engine handle. */
  class MzHandle {
    const kind: HandleKind
    const pool: HandlePool
    var handle: Option<nat>

    ghost predicate Valid()
      reads this, pool
    {
      pool.Valid() && (handle.Some? ==> handle.value in pool.live)
    }

    /** The default constructor creates an engine handle (null if that fails). */
    constructor (kind: HandleKind, pool: HandlePool, allocates: bool)
      requires pool.Valid()
      modifies pool
      ensures Valid() && this.kind == kind && this.pool == pool
      ensures pool.deleted == old(pool.deleted)
      ensures allocates ==>
        (handle.Some? && handle.value !in old(pool.live) && pool.live == old(pool.live) + {handle.value})
      ensures allocates ==> handle.value == old(pool.next) && pool.next == old(pool.next) + 1
      ensures !allocates ==> handle.None? && pool.live == old(pool.live) && pool.next == old(pool.next)
    {
      this.kind := kind;
      this.pool := pool;
      new;
      handle := pool.Create(allocates);
    }

    /** Move construction: takes the other's handle and leaves it null. */
    constructor Move(other: MzHandle)
      requires other.Valid()
      modifies other
      ensures Valid() && kind == other.kind && pool == other.pool
      ensures handle == old(other.handle) && other.handle.None?
      ensures unchanged(pool)
    {
      kind, pool := other.kind, other.pool;
      handle := other.handle;
      new;
      other.handle := None;
    }

    /** The destructor: deletes the handle only when it is not null. */
    method Release()
      requires Valid()
      modifies this, pool
      ensures Valid() && handle.None?
      ensures old(handle).Some? ==>
        pool.deleted == old(pool.deleted) + [old(handle).value] && pool.live == old(pool.live) - {old(handle).value}
      ensures old(handle).None? ==> pool.deleted == old(pool.deleted) && pool.live == old(pool.live)
    {
      if handle.Some? {
        pool.Delete(handle.value);
        handle := None;
      }
    }

    /** Move assignment: a self-move does nothing; otherwise the held handle
        is deleted, the other's is taken and the other is left null. */
    method MoveAssign(other: MzHandle)
      requires Valid() && other.Valid() && other.pool == pool && other.kind == kind
      requires this != other && handle.Some? ==> handle != other.handle
      modifies this, other, pool
      ensures Valid() && other.Valid()
      ensures this == other ==> handle == old(handle) && unchanged(pool)
      ensures this != other ==>
        && handle == old(other.handle) && other.handle.None?
        && (old(handle).Some? ==> pool.deleted == old(pool.deleted) + [old(handle).value]
                                   && pool.live == old(pool.live) - {old(handle).value})
        && (old(handle).None? ==> pool.deleted == old(pool.deleted) && pool.live == old(pool.live))
    {
      if this == other {
        return;
      }
      if handle.Some? {
        pool.Delete(handle.value);
      }
      handle := other.handle;
      other.handle := None;
    }
  }

  /** Moving a handle into a second owner and destroying both owners deletes
      that engine handle exactly once. */
  method MoveThenDestroyBoth(pool: HandlePool)
    requires pool.Valid()
    modifies pool
    ensures pool.Valid()
    ensures |pool.deleted| == |old(pool.deleted)| + 1
    ensures pool.deleted[..|old(pool.deleted)|] == old(pool.deleted)
    ensures pool.deleted[|old(pool.deleted)|] !in old(pool.live)
    ensures pool.live == old(pool.live)
  {
    var first := new MzHandle(ReaderKind, pool, true);
    var h := first.handle.value;
    var second := new MzHandle.Move(first);
    first.Release();
    second.Release();
    assert pool.deleted == old(pool.deleted) + [h];
  }

  /** Move-assigning one owner into another and destroying both owners
      deletes the overwritten owner's handle first, then the moved one, each
      exactly once. */
  method MoveAssignThenDestroyBoth(target: MzHandle, source: MzHandle)
    requires target.Valid() && source.Valid() && target != source
    requires target.pool == source.pool && target.kind == source.kind
    requires target.handle.Some? && source.handle.Some? && target.handle != source.handle
    modifies target, source, target.pool
    ensures target.pool.Valid() && target.handle.None? && source.handle.None?
    ensures target.pool.deleted ==
      old(target.pool.deleted) + [old(target.handle).value, old(source.handle).value]
    ensures target.pool.live ==
      old(target.pool.live) - {old(target.handle).value, old(source.handle).value}
  {
    target.MoveAssign(source);
    target.Release();
    source.Release();
  }

  /** Two fresh owners of the same kind meet every precondition of
      MoveAssignThenDestroyBoth: their two new handles are deleted, the one
      created first before the other, and the live set is as before. */
  method MoveAssignFreshOwners(pool: HandlePool) returns (first: nat, second: nat)
    requires pool.Valid()
    modifies pool
    ensures pool.Valid()
    ensures first == old(pool.next) && second == old(pool.next) + 1
    ensures first !in old(pool.live) && second !in old(pool.live)
    ensures pool.deleted == old(pool.deleted) + [first, second]
    ensures pool.live == old(pool.live)
  {
    var target := new MzHandle(WriterKind, pool, true);
    var source := new MzHandle(WriterKind, pool, true);
    first, second := target.handle.value, source.handle.value;
    MoveAssignThenDestroyBoth(target, source);
  }
}
