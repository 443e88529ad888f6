# Box Backup: reference-count table, rolling checksum, SplitString

A Dafny model of three pieces of the Box Backup code base, with proofs of
what each promises.

- **The per-account reference-count table of the backup store**
  (`BackupStoreRefCountDatabase`).
  - The table is one file: an 8-byte header, then one 4-byte count per object ID, object 1 first.
  - The header holds the magic value `0x52656643` ("RefC") and the account ID, both big-endian.
  - The open file is a `StoredFile` object holding a byte sequence.
  - The table object keeps a reference to that file. `SetRefCount`, `AddReference` and `RemoveReference` seek into it and overwrite it in place.
  - A write past the end grows the file, and the bytes of any gap read as zero.
- **The rsync-style rolling checksum of the block-matching scanner**
  (`RollingChecksum`).
  - It keeps two 16-bit accumulators `a` and `b`, updated in place.
  - The constructor runs a count-down loop and is proved to compute the checksum from scratch.
  - `RollForwardSeveral` runs a loop that also accumulates `sumBegin`. It is proved to compute `Rolled`, the closed form of moving the window.
  - The key theorem: rolling the checksum of one window gives the from-scratch checksum of the shifted window.
- **`SplitString`**.
  - A `while` loop finds each separator with `find_first_of`.
  - It `push_back`s each non-empty piece onto the caller's vector, a `StringVector` object whose `elems` field it extends.

Files:
- `byte_order.dfy` (module `ByteOrder`): `htonl`/`ntohl` on 32-bit values and the `int32_t` reinterpretation.
- `refcount_database.dfy` (module `RefCountStore`).
- `rolling_checksum.dfy` (module `Rolling`).
- `split_string.dfy` (module `Utils`).

## Behaviour worth noting

- **Skipped slots read as zero.** After `AddReference(5)` on an empty table, the file holds five slots. `GetRefCount(1)`..`GetRefCount(4)` therefore return 0; they do not fail with the unknown-object error. The bounds check compares the slot's end with the file size (lib/backupstore/BackupStoreRefCountDatabase.cpp:177). `AddRemoveScenario` shows this for object 1 after `AddReference(7)`.
- **Removing beyond the table is a recoverable error.** `RemoveReference` on an ID beyond the table fails inside `GetRefCount` (lib/backupstore/BackupStoreRefCountDatabase.cpp:236) with `UnknownObjectRefCountRequested`, an ordinary exception and not an assertion. The model returns it as an `Err`. Only the `ASSERT(refcount > 0)` is a precondition.

## Model

| member | source | states |
|---|---|---|
| ByteOrder.EncodeU32 | lib/backupstore/BackupStoreRefCountDatabase.cpp:85-86 | `htonl` gives four bytes whose most-significant-first weight is the value |
| ByteOrder.DecodeEncode | lib/backupstore/BackupStoreRefCountDatabase.cpp:196 | `ntohl(htonl(v)) == v` for every 32-bit value |
| ByteOrder.EncodeDecode | lib/backupstore/BackupStoreRefCountDatabase.cpp:143-144 | any four stored bytes are the encoding of what they decode to |
| ByteOrder.AsUnsigned | lib/backupstore/BackupStoreRefCountDatabase.cpp:86 | the bit pattern `htonl` sees for a signed account ID agrees with it modulo 2^32 |
| ByteOrder.AsSigned | lib/backupstore/BackupStoreRefCountDatabase.cpp:144 | the `(int32_t)` cast agrees with the unsigned value modulo 2^32 |
| ByteOrder.SignedRoundTrip | lib/backupstore/BackupStoreRefCountDatabase.cpp:143-144 | casting a stored account ID back to `int32_t` recovers it |
| ByteOrder.UnsignedRoundTrip | lib/backupstore/BackupStoreRefCountDatabase.cpp:143-144 | the reinterpretation loses no bit pattern |
| RefCountStore.WriteAt | lib/backupstore/BackupStoreRefCountDatabase.cpp:229-231 | seek-then-write: the written bytes land at the offset, other bytes keep their value, the file grows to cover the write, and a gap reads as zero |
| RefCountStore.Header | lib/backupstore/BackupStoreRefCountDatabase.cpp:84-86 | the header is `sizeof(refcount_StreamFormat)` = 8 bytes |
| RefCountStore.CheckHeader | lib/backupstore/BackupStoreRefCountDatabase.cpp:135-149 | a short header, and only a short header, gives `CouldNotLoadStoreInfo`; the only other outcomes are acceptance and `BadStoreInfoOnLoad` |
| RefCountStore.HeaderAccepted | lib/backupstore/BackupStoreRefCountDatabase.cpp:133-149 | Load's checks pass if and only if the file starts with the header for that account |
| RefCountStore.LoadAfterCreate | lib/backupstore/BackupStoreRefCountDatabase.cpp:80-109 | whatever the file held before, Load accepts it once Create has written the header |
| RefCountStore.LoadOtherAccount | lib/backupstore/BackupStoreRefCountDatabase.cpp:143-149 | a table created for one account fails with `BadStoreInfoOnLoad` for any other account |
| RefCountStore.LastObjectID | lib/backupstore/BackupStoreRefCountDatabase.cpp:199-203 | the last ID is the number of whole slots after the header |
| RefCountStore.Offset | lib/backupstore/BackupStoreRefCountDatabase.cpp:175-177 | the slot of an object lies after the header and ends where `id` whole slots end |
| RefCountStore.SlotInFileIffKnown | lib/backupstore/BackupStoreRefCountDatabase.cpp:175-183 | the bounds check `size < offset + 4` fails exactly when the ID exceeds the last ID used |
| RefCountStore.SetSlotShape | lib/backupstore/BackupStoreRefCountDatabase.cpp:228-231 | setting a slot keeps the header, makes the size max(old size, offset + 4), and makes the last ID max(old last ID, id) |
| RefCountStore.SetThenGet | lib/backupstore/BackupStoreRefCountDatabase.cpp:225-232 | the slot written reads back as the count written |
| RefCountStore.SetKeepsOtherSlots | lib/backupstore/BackupStoreRefCountDatabase.cpp:225-232 | every other existing slot keeps its count |
| RefCountStore.SetZeroFillsGap | lib/backupstore/BackupStoreRefCountDatabase.cpp:228-231 | a slot lying wholly past the old end, below the one set, reads as zero |
| RefCountStore.SetSlotAligned | lib/backupstore/BackupStoreRefCountDatabase.cpp:225-232 | a file made of whole slots stays so after a set |
| RefCountStore.SetSlotZeroesGap | lib/backupstore/BackupStoreRefCountDatabase.cpp:205-232 | on a file of whole slots, every ID between the old last ID and the one set reads as zero |
| RefCountStore.Create | lib/backupstore/BackupStoreRefCountDatabase.cpp:80-109 | refuses an existing file with `CannotOverwriteExistingFile` unless overwriting is allowed, leaving it alone. Otherwise it writes only the 8 header bytes at offset 0 over the old contents, which are not truncated. The result always passes Load's checks, and a new file holds no slots |
| RefCountStore.Load | lib/backupstore/BackupStoreRefCountDatabase.cpp:122-160 | a missing file fails to open, a short header fails with `CouldNotLoadStoreInfo`, and a wrong magic value or account ID fails with `BadStoreInfoOnLoad`; otherwise it returns a fresh table bound to the open file with the requested mode |
| RefCountStore.RefCountDatabase.constructor | lib/backupstore/BackupStoreRefCountDatabase.cpp:152-156 | the table records the account, the open stream and the mode |
| RefCountStore.RefCountDatabase.GetLastObjectIDUsed | lib/backupstore/BackupStoreRefCountDatabase.cpp:199-203 | the slots of IDs 1..result lie within the file, and the next one does not |
| RefCountStore.RefCountDatabase.GetRefCount | lib/backupstore/BackupStoreRefCountDatabase.cpp:173-197 | fails with `UnknownObjectRefCountRequested` exactly when the ID exceeds the last ID used; otherwise returns the big-endian decoding of that slot |
| RefCountStore.RefCountDatabase.SetRefCount | lib/backupstore/BackupStoreRefCountDatabase.cpp:225-232 | writes the encoded count at the slot with no bounds check. The count then reads back, the last ID becomes max(old, id) and the header stays valid. A read-only stream refuses the write and nothing changes |
| RefCountStore.RefCountDatabase.AddReference | lib/backupstore/BackupStoreRefCountDatabase.cpp:205-223 | an ID beyond the table gets count 1 without a read and becomes the last ID; otherwise the stored count plus one, modulo 2^32, is written back |
| RefCountStore.RefCountDatabase.RemoveReference | lib/backupstore/BackupStoreRefCountDatabase.cpp:234-241 | an ID beyond the table fails with `UnknownObjectRefCountRequested`; otherwise count − 1 is written and the result says whether it is still positive |
| RefCountStore.AddRemoveScenario | lib/backupstore/BackupStoreRefCountDatabase.cpp:205-241 | three `AddReference(7)` then three `RemoveReference(7)` on a new table return true, true, false; slot 1, skipped over, reads 0 and slot 7 ends at 0 |
| Rolling.SumConcat | lib/crypto/RollingChecksum.cpp:30 | the plain sum `a` accumulates splits over concatenation |
| Rolling.WeightedSumConcat | lib/crypto/RollingChecksum.cpp:31 | appending bytes raises the weight of each earlier byte by their number |
| Rolling.WeightedIsDirect | lib/crypto/RollingChecksum.cpp:28-34 | the weighted sum is Σ (n − i)·w[i]: the first byte of an n-byte window weighs n, the last 1 |
| Rolling.RollEqualsRecompute | lib/crypto/RollingChecksum.cpp:46-62 | rolling the checksum of data[s, s+length) by `skip` gives the from-scratch checksum of data[s+skip, s+skip+length), for any skip |
| Rolling.RollComposes | lib/crypto/RollingChecksum.cpp:46-62 | rolling by skip1 and then by skip2 is one roll over the concatenated leaving and entering bytes |
| Rolling.ZeroSkip | lib/crypto/RollingChecksum.cpp:52-61 | rolling by no bytes leaves the checksum unchanged |
| Rolling.WindowOfThree | lib/crypto/RollingChecksum.cpp:28-34 | in a 3-byte window the weights are 3, 2, 1 |
| Rolling.ConstantWindow | lib/crypto/RollingChecksum.cpp:28-34 | n copies of x sum to n·x with weighted sum n(n+1)x/2 |
| Rolling.Wraparound | lib/crypto/RollingChecksum.cpp:30-31 | both accumulators wrap modulo 2^16: 300 bytes of 255 give (10964, 44450) |
| Rolling.RollingChecksum.constructor | lib/crypto/RollingChecksum.cpp:23-35 | the count-down loop leaves (a, b) equal to the from-scratch checksum of the first `length` bytes, (0, 0) for none |
| Rolling.RollingChecksum.RollForwardSeveral | lib/crypto/RollingChecksum.cpp:46-62 | the loop and the final `b - Length * sumBegin` give `Rolled` of the old checksum. Only the first `skip` bytes of each input are read |
| Rolling.WorkedExample | lib/crypto/RollingChecksum.cpp:23-62 | bytes 1..7, window 3: (6, 10); rolled by 1, (9, 16) = checksum of [2, 3, 4]; rolled by 2, (12, 22) = checksum of [3, 4, 5] |
| Utils.FindFirstOf | lib/common/Utils.cpp:40 | a position it returns lies at or after the start and holds the separator |
| Utils.FindFirstOfIsFirst | lib/common/Utils.cpp:40 | no separator lies between the start and what it finds, nor anywhere after the start when it finds nothing |
| Utils.FindsFirst | lib/common/Utils.cpp:40 | the first separator at or after the start is what it returns |
| Utils.PiecesNonEmpty | lib/common/Utils.cpp:44-53 | no piece is empty |
| Utils.PiecesSeparatorFree | lib/common/Utils.cpp:40-48 | no piece contains the separator |
| Utils.PiecesJoin | lib/common/Utils.cpp:35-54 | the pieces joined in order are the string with every separator removed |
| Utils.PiecesOfUnbroken | lib/common/Utils.cpp:51-54 | a non-empty string without the separator is one piece, itself |
| Utils.PiecesOfSeparators | lib/common/Utils.cpp:40-54 | an empty string, or one of separators only, has no pieces |
| Utils.PiecesAround | lib/common/Utils.cpp:40-49 | the pieces of s1 + separator + s2 are the pieces of s1 followed by those of s2 |
| Utils.PiecesFromRest | lib/common/Utils.cpp:40-49 | the pieces still to come when the loop stands at `b` are the pieces of the rest of the string |
| Utils.StringVector.PushBack | lib/common/Utils.cpp:46 | `push_back` appends one element and keeps the others |
| Utils.SplitString | lib/common/Utils.cpp:35-54 | the caller's vector ends as what it held before followed by the pieces of the string; nothing is cleared |
| Utils.ExamplePieces | lib/common/Utils.cpp:35-54 | ":x::y" has pieces "x", "y": empty pieces before and between separators are dropped |
| Utils.SplitExample | lib/common/Utils.cpp:35-54 | splitting ":x::y" onto a vector holding "old" gives "old", "x", "y" |

## Left out

- `GetFilename` and the RaidFile disc-set lookup behind it are not part of this model. The file is passed in as a `StoredFile`, and `FileExists` becomes the `present` flag.
- `FileStream` internals are modelled as a byte sequence with seek, exact read and write, where a write past the end zero-fills the gap. The seek and read calls are not modelled one by one.
- The short-read error of `GetRefCount` (`CouldNotLoadStoreInfo` after a successful bounds check) cannot occur on a byte sequence whose size has just been checked, so it has no branch.
- The race between `FileExists` and the `O_EXCL` open in `Create` is left out; opening is modelled as atomic.
- Create: with overwriting allowed, the model keeps the old file's body after the new header, as the code does when it opens without `O_TRUNC`. It does not claim that the table is emptied.
- The `mReadOnly` flag: the class never consults it. The model records the open mode and makes writes fail on a read-only stream, standing for the exception the stream itself raises.
- RefCountStore.RefCountDatabase.GetRefCount, SetRefCount, AddReference, RemoveReference: require `id >= 1`. The code does not check it: ID 0 would address the account-ID field of the header and ID −1 the magic value.
- RefCountStore.RefCountDatabase.RemoveReference: the `ASSERT(refcount > 0)` is a precondition, so removing from a zero count is not modelled.
- `GetOffset` is declared in BackupStoreRefCountDatabase.h, which is not part of this model; `RefCountStore.Offset` follows the file layout (header, then one slot per ID from 1).
- The 64-bit `pos_type` and `int64_t` arithmetic of offsets and IDs is modelled with unbounded integers; overflow for IDs near 2^61 is not modelled.
- Rolling.RollingChecksum.RollForwardSeveral: the pointers become sequences, and only their first `skip` bytes matter. Reading past the end of the caller's buffer is excluded by the precondition rather than modelled.
- `size_t` and `unsigned int` products in the rolling checksum are taken modulo 2^16 directly. Their truncation to 64 or 32 bits first does not change the 16-bit result, because 2^16 divides both moduli.
- Utils.SplitString: `unsigned int len = e - b` would truncate for strings over 4 GiB; strings are unbounded in the model.
- `FileExists`, `ObjectExists` and `DumpStackBacktrace` of the utilities are operating-system calls and are not modelled.
