/**
 The per-account object reference-count table of the backup store.

 The table is one file: an 8-byte header (the magic value, then the account
 ID, both in network byte order) followed by one 4-byte big-endian count per
 object ID, object 1 first. The open file is a byte sequence that the
 database object seeks into and overwrites in place; a write past the end of
 the file extends it, and the bytes of any gap read back as zero.
 */
module RefCountStore {
  import opened ByteOrder

  const RefCountMagicValue: UInt32 := 0x5265_6643  // "RefC"
  /** sizeof(refcount_StreamFormat): magic value and account ID. */
  const HeaderSize: nat := 8
  /** sizeof(refcount_t). */
  const EntrySize: nat := 4

  datatype Error =
    | CannotOverwriteExistingFile     // RaidFileException
    | OSFileOpenError                 // the stream could not be opened
    | OSFileWriteError                // the stream refused a write (opened read-only)
    | CouldNotLoadStoreInfo           // short read of the header
    | BadStoreInfoOnLoad              // wrong magic value or account ID
    | UnknownObjectRefCountRequested  // slot lies beyond the end of the file

  datatype Result<T> = Ok(value: T) | Err(error: Error)
  datatype Outcome = Pass | Fail(error: Error)

  /** The account the table belongs to; only its ID reaches the file. */
  datatype Account = Account(id: Int32)

  // ---------------------------------------------------------------------
  // The byte stream

  function Zeros(n: nat): (r: seq<Byte>)
    ensures |r| == n
    ensures forall i :: 0 <= i < n ==> r[i] == 0
  {
    seq(n, _ => 0)
  }

  /**
   The file after seeking to `pos` and writing `d`: the bytes at
   [pos, pos + |d|) are replaced, the file grows if the write reaches past its
   end, and a gap between the old end and `pos` reads as zero.
   */
  function WriteAt(s: seq<Byte>, pos: nat, d: seq<Byte>): (r: seq<Byte>)
    ensures |r| == if pos + |d| <= |s| then |s| else pos + |d|
    ensures forall i :: 0 <= i < |d| ==> r[pos + i] == d[i]
    ensures forall i :: 0 <= i < |s| && (i < pos || pos + |d| <= i) ==> r[i] == s[i]
    ensures forall i :: |s| <= i < pos ==> r[i] == 0
  {
    if pos <= |s| then
      s[..pos] + d + (if pos + |d| <= |s| then s[pos + |d|..] else [])
    else
      s + Zeros(pos - |s|) + d
  }

  // ---------------------------------------------------------------------
  // Header

  /** The header Create writes for an account. */
  function Header(accountId: Int32): (r: seq<Byte>)
    ensures |r| == HeaderSize
  {
    EncodeU32(RefCountMagicValue) + EncodeU32(AsUnsigned(accountId))
  }

  /** The checks Load makes of the start of the file. */
  function CheckHeader(bytes: seq<Byte>, accountId: Int32): (r: Outcome)
    ensures r == Fail(CouldNotLoadStoreInfo) <==> |bytes| < HeaderSize
    ensures r == Pass || r == Fail(CouldNotLoadStoreInfo) || r == Fail(BadStoreInfoOnLoad)
  {
    if |bytes| < HeaderSize then
      Fail(CouldNotLoadStoreInfo)
    else if DecodeU32(bytes[0..4]) != RefCountMagicValue
         || AsSigned(DecodeU32(bytes[4..8])) != accountId then
      Fail(BadStoreInfoOnLoad)
    else
      Pass
  }

  /** Load accepts a file exactly when it starts with the header Create writes. */
  lemma HeaderAccepted(bytes: seq<Byte>, accountId: Int32)
    ensures CheckHeader(bytes, accountId) == Pass
        <==> |bytes| >= HeaderSize && bytes[..HeaderSize] == Header(accountId)
  {
    if |bytes| >= HeaderSize {
      var h := Header(accountId);
      DecodeEncode(RefCountMagicValue);
      DecodeEncode(AsUnsigned(accountId));
      SignedRoundTrip(accountId);
      assert h[0..4] == EncodeU32(RefCountMagicValue);
      assert h[4..8] == EncodeU32(AsUnsigned(accountId));
      if CheckHeader(bytes, accountId) == Pass {
        EncodeDecode(bytes[0..4]);
        EncodeDecode(bytes[4..8]);
        UnsignedRoundTrip(DecodeU32(bytes[4..8]));
        assert bytes[..HeaderSize] == bytes[0..4] + bytes[4..8];
      }
      if bytes[..HeaderSize] == h {
        assert bytes[0..4] == h[0..4];
        assert bytes[4..8] == h[4..8];
      }
    }
  }

  /** Whatever the file held before, Load accepts it once Create has written the header. */
  lemma LoadAfterCreate(before: seq<Byte>, accountId: Int32)
    ensures CheckHeader(WriteAt(before, 0, Header(accountId)), accountId) == Pass
  {
    var after := WriteAt(before, 0, Header(accountId));
    assert after[..HeaderSize] == Header(accountId);
    HeaderAccepted(after, accountId);
  }

  /** A table created for one account is refused when loaded for another. */
  lemma LoadOtherAccount(before: seq<Byte>, created: Int32, expected: Int32)
    requires created != expected
    ensures CheckHeader(WriteAt(before, 0, Header(created)), expected) == Fail(BadStoreInfoOnLoad)
  {
    var after := WriteAt(before, 0, Header(created));
    assert after[..HeaderSize] == Header(created);
    assert after[0..4] == Header(created)[0..4];
    assert after[4..8] == Header(created)[4..8];
    DecodeEncode(RefCountMagicValue);
    DecodeEncode(AsUnsigned(created));
    SignedRoundTrip(created);
  }

  // ---------------------------------------------------------------------
  // Slots

  /** Position of an object's slot: the first slot follows the header. */
  function Offset(id: int): (r: nat)
    requires id >= 1
    ensures HeaderSize <= r && r + EntrySize == HeaderSize + id * EntrySize
  {
    HeaderSize + (id - 1) * EntrySize
  }

  /** The highest object ID whose slot lies wholly inside a file of `size` bytes. */
  function LastObjectID(size: nat): (r: nat)
    requires size >= HeaderSize
    ensures HeaderSize + r * EntrySize <= size < HeaderSize + (r + 1) * EntrySize
  {
    (size - HeaderSize) / EntrySize
  }

  /** The bounds check of GetRefCount is the same as comparing with the last ID used. */
  lemma SlotInFileIffKnown(size: nat, id: int)
    requires size >= HeaderSize && id >= 1
    ensures Offset(id) + EntrySize <= size <==> id <= LastObjectID(size)
  {
  }

  /** The count a slot holds, after byte-order correction. */
  function Slot(bytes: seq<Byte>, id: int): UInt32
    requires id >= 1 && Offset(id) + EntrySize <= |bytes|
  {
    DecodeU32(bytes[Offset(id)..Offset(id) + EntrySize])
  }

  /** The file after SetRefCount(id, count). */
  function SetSlot(bytes: seq<Byte>, id: int, count: UInt32): seq<Byte>
    requires id >= 1
  {
    WriteAt(bytes, Offset(id), EncodeU32(count))
  }

  /** Setting a slot leaves the header alone and grows the file to hold the slot. */
  lemma SetSlotShape(bytes: seq<Byte>, id: int, count: UInt32)
    requires |bytes| >= HeaderSize && id >= 1
    ensures var after := SetSlot(bytes, id, count);
      && |after| == (if Offset(id) + EntrySize <= |bytes| then |bytes| else Offset(id) + EntrySize)
      && after[..HeaderSize] == bytes[..HeaderSize]
      && LastObjectID(|after|) == (if id <= LastObjectID(|bytes|) then LastObjectID(|bytes|) else id)
  {
    var after := SetSlot(bytes, id, count);
    assert forall i :: 0 <= i < HeaderSize ==> after[i] == bytes[i];
    SlotInFileIffKnown(|bytes|, id);
  }

  /** Set then get: the slot written reads back as the count written. */
  lemma SetThenGet(bytes: seq<Byte>, id: int, count: UInt32)
    requires |bytes| >= HeaderSize && id >= 1
    ensures Offset(id) + EntrySize <= |SetSlot(bytes, id, count)|
    ensures Slot(SetSlot(bytes, id, count), id) == count
  {
    var after := SetSlot(bytes, id, count);
    var off := Offset(id);
    assert after[off..off + EntrySize] == EncodeU32(count) by {
      forall i | 0 <= i < EntrySize
        ensures after[off + i] == EncodeU32(count)[i]
      {
      }
    }
    DecodeEncode(count);
  }

  /** Setting one slot leaves every other existing slot as it was. */
  lemma SetKeepsOtherSlots(bytes: seq<Byte>, id: int, count: UInt32, other: int)
    requires |bytes| >= HeaderSize && id >= 1 && other >= 1 && other != id
    requires Offset(other) + EntrySize <= |bytes|
    ensures Offset(other) + EntrySize <= |SetSlot(bytes, id, count)|
    ensures Slot(SetSlot(bytes, id, count), other) == Slot(bytes, other)
  {
    var after := SetSlot(bytes, id, count);
    var off := Offset(other);
    assert off + EntrySize <= Offset(id) || Offset(id) + EntrySize <= off;
    assert after[off..off + EntrySize] == bytes[off..off + EntrySize] by {
      forall i | off <= i < off + EntrySize
        ensures after[i] == bytes[i]
      {
      }
    }
  }

  /** A slot that lay wholly past the old end of the file, below the one set, reads as zero. */
  lemma SetZeroFillsGap(bytes: seq<Byte>, id: int, count: UInt32, other: int)
    requires |bytes| >= HeaderSize && 1 <= other < id
    requires |bytes| <= Offset(other)
    ensures Offset(other) + EntrySize <= |SetSlot(bytes, id, count)|
    ensures Slot(SetSlot(bytes, id, count), other) == 0
  {
    var after := SetSlot(bytes, id, count);
    var off := Offset(other);
    assert off + EntrySize <= Offset(id);
    assert after[off] == 0 && after[off + 1] == 0 && after[off + 2] == 0 && after[off + 3] == 0;
    assert after[off..off + EntrySize] == [0, 0, 0, 0];
  }

  /** The body of the file is a whole number of slots. */
  predicate Aligned(bytes: seq<Byte>)
  {
    |bytes| >= HeaderSize && (|bytes| - HeaderSize) % EntrySize == 0
  }

  /** A file made of whole slots has exactly LastObjectID of them. */
  lemma AlignedSize(bytes: seq<Byte>)
    requires Aligned(bytes)
    ensures |bytes| == HeaderSize + LastObjectID(|bytes|) * EntrySize
  {
  }

  /** On a file made of whole slots, setting a slot keeps it so. */
  lemma SetSlotAligned(bytes: seq<Byte>, id: int, count: UInt32)
    requires Aligned(bytes) && id >= 1
    ensures Aligned(SetSlot(bytes, id, count))
  {
    var after := SetSlot(bytes, id, count);
    assert |after| == if Offset(id) + EntrySize <= |bytes| then |bytes| else Offset(id) + EntrySize;
    if Offset(id) + EntrySize > |bytes| {
      assert |after| - HeaderSize == id * EntrySize;
      WholeSlots(id);
    }
  }

  lemma WholeSlots(k: int)
    ensures (k * EntrySize) % EntrySize == 0
  {
  }

  /** Setting a slot past the last ID makes every slot in between read as zero. */
  lemma SetSlotZeroesGap(bytes: seq<Byte>, id: int, count: UInt32)
    requires Aligned(bytes) && id >= 1
    ensures forall other :: LastObjectID(|bytes|) < other < id ==>
      Offset(other) + EntrySize <= |SetSlot(bytes, id, count)| && Slot(SetSlot(bytes, id, count), other) == 0
  {
    AlignedSize(bytes);
    forall other | LastObjectID(|bytes|) < other < id
      ensures Offset(other) + EntrySize <= |SetSlot(bytes, id, count)|
      ensures Slot(SetSlot(bytes, id, count), other) == 0
    {
      assert |bytes| <= Offset(other);
      SetZeroFillsGap(bytes, id, count, other);
    }
  }

  // ---------------------------------------------------------------------
  // The file on disc and the open table

  /** The account's refcount file (its name is resolved outside this model). */
  class StoredFile {
    var present: bool
    var bytes: seq<Byte>

    constructor Absent()
      ensures !present && bytes == []
    {
      present, bytes := false, [];
    }

    constructor Holding(contents: seq<Byte>)
      ensures present && bytes == contents
    {
      present, bytes := true, contents;
    }
  }

  /**
   Create: refuses to replace an existing file unless allowed; otherwise opens
   the file (creating it, never truncating it) and writes the header at offset 0.
   */
  method Create(account: Account, file: StoredFile, allowOverwrite: bool) returns (r: Outcome)
    modifies file
    ensures old(file.present) && !allowOverwrite ==> r == Fail(CannotOverwriteExistingFile) && unchanged(file)
    ensures !old(file.present) || allowOverwrite ==>
      && r == Pass
      && file.present
      && file.bytes == WriteAt(if old(file.present) then old(file.bytes) else [], 0, Header(account.id))
    ensures r == Pass ==> CheckHeader(file.bytes, account.id) == Pass
    ensures r == Pass && !old(file.present) ==> |file.bytes| == HeaderSize && LastObjectID(|file.bytes|) == 0
  {
    if file.present && !allowOverwrite {
      return Fail(CannotOverwriteExistingFile);
    }
    var before := if file.present then file.bytes else [];
    file.present := true;
    file.bytes := WriteAt(before, 0, Header(account.id));
    LoadAfterCreate(before, account.id);
    return Pass;
  }

  /**
   Load: opens the account's file, reads and checks the header, and returns a
   table bound to the open file. The body is not examined.
   */
  method Load(account: Account, file: StoredFile, readOnly: bool) returns (r: Result<RefCountDatabase>)
    ensures !file.present ==> r == Err(OSFileOpenError)
    ensures file.present && CheckHeader(file.bytes, account.id).Fail? ==>
      r == Err(CheckHeader(file.bytes, account.id).error)
    ensures file.present && CheckHeader(file.bytes, account.id) == Pass ==>
      && r.Ok?
      && fresh(r.value)
      && r.value.Valid()
      && r.value.account == account && r.value.file == file && r.value.readOnly == readOnly
  {
    if !file.present {
      return Err(OSFileOpenError);
    }
    var check := CheckHeader(file.bytes, account.id);
    if check.Fail? {
      return Err(check.error);
    }
    var db := new RefCountDatabase(account, file, readOnly);
    return Ok(db);
  }

  class RefCountDatabase {
    const account: Account
    /** The open stream; writes go straight to the file. */
    const file: StoredFile
    /** The open mode: a read-only stream refuses writes. */
    const readOnly: bool

    ghost predicate Valid()
      reads file
    {
      file.present && CheckHeader(file.bytes, account.id) == Pass
    }

    constructor (account: Account, file: StoredFile, readOnly: bool)
      requires file.present && CheckHeader(file.bytes, account.id) == Pass
      ensures this.account == account && this.file == file && this.readOnly == readOnly
      ensures Valid()
    {
      this.account, this.file, this.readOnly := account, file, readOnly;
    }

    /** Derived from the file size: (size - header) / slot size. */
    function GetLastObjectIDUsed(): (r: nat)
      requires Valid()
      reads file
      ensures HeaderSize + r * EntrySize <= |file.bytes| < HeaderSize + (r + 1) * EntrySize
    {
      LastObjectID(|file.bytes|)
    }

    /** Reads an object's count, refusing a slot that lies beyond the end of the file. */
    method GetRefCount(id: int) returns (r: Result<UInt32>)
      requires Valid() && id >= 1
      ensures id > GetLastObjectIDUsed() ==> r == Err(UnknownObjectRefCountRequested)
      ensures id <= GetLastObjectIDUsed() ==>
        Offset(id) + EntrySize <= |file.bytes| && r == Ok(Slot(file.bytes, id))
    {
      var offset := Offset(id);
      SlotInFileIffKnown(|file.bytes|, id);
      if |file.bytes| < offset + EntrySize {
        return Err(UnknownObjectRefCountRequested);
      }
      var count := DecodeU32(file.bytes[offset..offset + EntrySize]);
      return Ok(count);
    }

    /** Writes an object's count with no bounds check, growing the file if needed. */
    method SetRefCount(id: int, count: UInt32) returns (r: Outcome)
      requires Valid() && id >= 1
      modifies file
      ensures Valid()
      ensures readOnly ==> r == Fail(OSFileWriteError) && unchanged(file)
      ensures !readOnly ==> r == Pass && file.bytes == SetSlot(old(file.bytes), id, count)
      ensures !readOnly ==> Offset(id) + EntrySize <= |file.bytes| && Slot(file.bytes, id) == count
      ensures !readOnly ==> GetLastObjectIDUsed() == if id <= old(GetLastObjectIDUsed()) then old(GetLastObjectIDUsed()) else id
    {
      if readOnly {
        return Fail(OSFileWriteError);
      }
      ghost var before := file.bytes;
      file.bytes := SetSlot(file.bytes, id, count);
      SetSlotShape(before, id, count);
      SetThenGet(before, id, count);
      HeaderAccepted(before, account.id);
      HeaderAccepted(file.bytes, account.id);
      return Pass;
    }

    /**
     Adds a reference: an ID beyond the table starts from zero without a read,
     otherwise the stored count is read; the count plus one (modulo 2^32, as
     refcount_t wraps) is written back.
     */
    method AddReference(id: int) returns (r: Outcome)
      requires Valid() && id >= 1
      modifies file
      ensures Valid()
      ensures readOnly ==> r == Fail(OSFileWriteError) && unchanged(file)
      ensures !readOnly ==> r == Pass
      ensures !readOnly && id > old(GetLastObjectIDUsed()) ==>
        file.bytes == SetSlot(old(file.bytes), id, 1) && GetLastObjectIDUsed() == id
      ensures !readOnly && id <= old(GetLastObjectIDUsed()) ==>
        && Offset(id) + EntrySize <= old(|file.bytes|)
        && file.bytes == SetSlot(old(file.bytes), id, (old(Slot(file.bytes, id)) + 1) % 0x1_0000_0000)
        && GetLastObjectIDUsed() == old(GetLastObjectIDUsed())
    {
      ghost var before := file.bytes;
      ghost var last := GetLastObjectIDUsed();
      var count: UInt32;
      if id > GetLastObjectIDUsed() {
        count := 0;
      } else {
        var got := GetRefCount(id);
        count := got.value;
      }
      count := (count + 1) % 0x1_0000_0000;
      assert id > last ==> count == 1;
      assert id <= last ==> count == (Slot(before, id) + 1) % 0x1_0000_0000;
      r := SetRefCount(id, count);
    }

    /**
     Removes a reference from an object already in the table and reports
     whether any remain. The caller must not remove a reference from a count
     that is already zero.
     */
    method RemoveReference(id: int) returns (r: Result<bool>)
      requires Valid() && id >= 1
      requires id <= GetLastObjectIDUsed() ==> Slot(file.bytes, id) > 0
      modifies file
      ensures Valid()
      ensures id > old(GetLastObjectIDUsed()) ==> r == Err(UnknownObjectRefCountRequested) && unchanged(file)
      ensures id <= old(GetLastObjectIDUsed()) && readOnly ==> r == Err(OSFileWriteError) && unchanged(file)
      ensures id <= old(GetLastObjectIDUsed()) && !readOnly ==>
        && Offset(id) + EntrySize <= old(|file.bytes|)
        && file.bytes == SetSlot(old(file.bytes), id, old(Slot(file.bytes, id)) - 1)
        && r == Ok(old(Slot(file.bytes, id)) > 1)
    {
      var got := GetRefCount(id);
      if got.Err? {
        return Err(got.error);
      }
      var count := got.value - 1;
      var written := SetRefCount(id, count);
      if written.Fail? {
        return Err(written.error);
      }
      return Ok(count > 0);
    }
  }

  /**
   Three references added to object 7 of a fresh table and removed again: the
   removals report true, true, false; the slots skipped over read as zero.
   */
  method AddRemoveScenario() returns (removals: seq<bool>, skipped: Result<UInt32>, last: Result<UInt32>)
    ensures removals == [true, true, false]
    ensures skipped == Ok(0) && last == Ok(0)
  {
    var file := new StoredFile.Absent();
    var account := Account(42);
    var created := Create(account, file, false);
    var loaded := Load(account, file, false);
    var db := loaded.value;
    assert db.GetLastObjectIDUsed() == 0;

    ghost var b0 := file.bytes;
    var _ := db.AddReference(7);
    SetThenGet(b0, 7, 1);
    SetZeroFillsGap(b0, 7, 1, 1);
    ghost var b1 := file.bytes;
    var _ := db.AddReference(7);
    SetThenGet(b1, 7, 2);
    SetKeepsOtherSlots(b1, 7, 2, 1);
    ghost var b2 := file.bytes;
    var _ := db.AddReference(7);
    SetThenGet(b2, 7, 3);
    SetKeepsOtherSlots(b2, 7, 3, 1);
    var three := db.GetRefCount(7);
    assert three == Ok(3);

    ghost var b3 := file.bytes;
    var first := db.RemoveReference(7);
    SetThenGet(b3, 7, 2);
    SetKeepsOtherSlots(b3, 7, 2, 1);
    ghost var b4 := file.bytes;
    var second := db.RemoveReference(7);
    SetThenGet(b4, 7, 1);
    SetKeepsOtherSlots(b4, 7, 1, 1);
    ghost var b5 := file.bytes;
    var third := db.RemoveReference(7);
    SetThenGet(b5, 7, 0);
    SetKeepsOtherSlots(b5, 7, 0, 1);
    removals := [first.value, second.value, third.value];

    skipped := db.GetRefCount(1);
    last := db.GetRefCount(7);
  }
}
