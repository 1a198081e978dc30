# Revault vault engine and replication, verified

Revault keeps an encrypted, versioned collection of files in one container file and replicates that
file to trusted peers by shipping the byte ranges each change wrote. This project models the engine and
the replication built on it in Dafny and proves that they do what they are for:

* **The vault is a map.** From `create`, over every run of add, update, delete, grant and revoke, a read
  returns exactly the contents stored last under that name, the listing is the domain of the map, every
  refusal is the one the source gives and changes nothing, and the block budget is exact
  (`Runs.Lifetime`, `Runs.Run`, and the `Performed` contracts of the class `Vaults.Vault`).
* **The container is its records.** The bytes of the file determine, and are determined by, the header,
  bitmap, file table, keyring, chain ring and blocks; every write replaces exactly one of those cells
  and is in the change log (`Container`, `Vaults.Vault.WriteAt`).
* **Key rotation keeps the meaning** of every file and locks out exactly the peers without another grant
  (`Vaults.Vault.RevokeAccess`, `Runs.RevokeThenOpen`).
* **The chain is tamper evident, exactly**: short of a hash collision, the check accepts a file if and
  only if its window is a suffix of the genuine one (`Chain.TamperEvidence`, `Vaults.FileTamperEvidence`);
  without any hypothesis, exactly if every slot of the window verifies, links and is anchored
  (`Chain.AcceptsTheUnbroken`, `Vaults.Vault.VerifyChain`).
* **Replicas are past states.** Over every run of commands, serving sessions, journal evictions, locking,
  joins and reconnects, each event does exactly what `Session.Happens` says and the vault is the fold of
  the commands; at every moment, every copy any peer holds is, byte for byte and file by file, what the
  admin's container was at an earlier moment of that run or is right then (`Replication.Story`,
  `Replication.CopyWasTheVault`). In a session that records every mutation, whoever comes back and is told
  it succeeded holds the very bytes the admin holds (`Session.ConsoleReconnects`), and once something has
  been recorded a granted peer does succeed exactly when it is at most 64 mutations behind and the patch
  fits a frame (`Session.SessionCatchesUp`, `Session.MissedCommandsArrive`); where recording has gaps, a
  patched replica is current if and only if nothing was left unrecorded (`Replication.PatchedState`,
  `Replication.GrantIsMissed`).
* **The wire keeps what it is given**: codecs are inverse, frames come back in order, the two ends of a
  connection share a key, never share a nonce, and hear each other in order (`Protocol`, `Channel`).

## How the model is built

One module per file. `Bytes`, `Results`, `Crypto`, `WriteLog`, `Codec` and `Tables` are the vocabulary;
`Format` and `Headers` the record formats; `Allocator`, `Content`, `Container`, `Shelf`, `Chain` and
`Image` the invariants of a healthy container; `Model` the abstract vault; `Vault.dfy` the engine as a
class over the bytes of the file; `Opening` and `Runs` creation, opening and whole runs; `Journal`,
`Protocol` and `Channel` the network side's parts; `Session` what each event does between an admin and the
peers, on values; `Serving` and `Replication` the classes proved to do just that.

`Vaults.Vault` has the source's fields -- file, header, allocator, key, admin identity, change log -- and
its methods take the source's steps in the source's order. Three ghost fields say which records the file
holds, which healthy `Image` the last finished operation left, and what the file held when the change
log was last drained. `Valid` ties memory to disk, `View` is the abstract vault, and every public
mutation is proved to do on `View` what `Model.After` and `Model.Answer` say, error cases included.

What is taken for granted:

* The cryptographic primitives are parameters; only inverse laws and output lengths are assumed of them
  (`Crypto.Primitives.Lawful`, shown consistent by `Crypto.LawsAreConsistent`). Nothing is claimed about
  secrecy. Absence of hash collisions is a hypothesis of the tamper-evidence theorems alone, and only
  between the records at hand.
* Randomness, fresh file identifiers and clock readings are arguments.
* File-system and network calls succeed. Every other error path is modelled.
* Offsets in a forged header are summed in 64 bits, wrapping around as in a release build.
* Sequence numbers stay below 2^64, file contents and message counts below 2^63, and the container's
  size fits 64 bits.

What the proofs turned up, code taken as it is:

* The allocator counts bits from the least significant one (src/core/allocator.rs:34-50), although the
  comment at the top of that file says most significant first.
* `apply_incoming` rejects a full copy (src/net/sync.rs:123-131), so a replica the journal no longer
  covers cannot catch up by reconnecting: `Session.CatchUpAnswer` is the exact outcome, success implies
  coverage, and the replica is otherwise left as it was (`Replication.CatchUp`).
* A journal that is still empty covers nobody, so between the start of serving and the first recorded
  mutation every reconnect fails, even that of a peer that misses nothing (`Session.CatchUpExactly`).
* Grants and revocations made in the terminal interface are not recorded
  (src/tui/widgets/network_tab.rs:154-175), so a patch sent right after one leaves the replica behind:
  whenever a peer could have caught up just before a grant, it is told afterwards that it succeeded and
  yet holds other bytes than the admin (`Replication.GrantIsMissed`); `Replication.PatchedState` is the
  exact condition.
* A patch may carry a key rotation past an open handle of a replica, which keeps its old key: the handle
  stands for the new state exactly when both states have one content key (`Replication.TakePatch`).
* `revoke_access` never checks the password it is given: whatever was typed opens the vault from then on
  (`Model.Accepted`, `Runs.RevokeThenOpen`).
* The chain check accepts a window with no records at all (src/core/vault.rs:1059-1090); that is the
  `k == |history|` case of `Chain.SuffixFrom`.
* `SecureChannel::send` spends a nonce even when the message is too large to be framed; its counter has
  moved on although nothing is on the wire (`Channel.SecureChannel.Send`).
* `blocks_used` is cut to 32 bits; no operation reads it back.
* A revoked key that is also granted under another signing key still opens the vault, since
  `open_as_recipient` looks for the encryption key alone (`Runs.RevocationTakesOneGrant`).

## Model

| member | source | states |
|---|---|---|
| `Bytes.FixedWidthRoundTrips` | src/core/format.rs:109-115 | little-endian integers of every width, two's complement included, read back as written |
| `Bytes.LittleEndianDigits` | src/core/format.rs:109-115 | byte j of a printed integer is its digit of weight 256^j |
| `Bytes.Utf8Exactly` | src/core/format.rs:345-347 | the byte strings accepted as text are exactly the UTF-8 encodings of sequences of Unicode scalar values |
| `WriteLog.ApplyAt` | src/core/vault.rs:454-458 | replaying ranges leaves at every position the byte written there last, else the old byte, else the zero fill |
| `WriteLog.ApplyConcat` | src/core/vault.rs:454-458 | replaying two patches one after the other is replaying their concatenation |
| `WriteLog.ReplayAbsorbsPrefix` | src/net/journal.rs:65-71 | replaying a log over a state that already has any prefix of it gives the same bytes: writes a peer holds already are harmless |
| `WriteLog.SpliceElsewhere` | src/core/vault.rs:421-426 | a write inside the file keeps the length and every range it does not touch |
| `Codec.FieldAt` | src/core/format.rs:119-126 | the k-th field of a printed record sits at the sum of the widths before it |
| `Codec.BlobRoundTrip` | src/core/format.rs:263-271 | a length-prefixed field of fixed width reads back its contents, as bytes and as text |
| `Codec.Writer.PadTo` | src/core/format.rs:119-126 | the cursor-driven writer yields the fields in order followed by zeros up to the record size |
| `Codec.Reader.Take` | src/core/format.rs:136-183 | the reader takes the next bytes or fails without moving, and never reads past its limit |
| `Format.EntryRoundTrip` | src/core/format.rs:499-569 | decoding the encoding of any file entry returns that entry |
| `Format.EntryLayout` | src/core/format.rs:499-523 | every field of a printed entry is at its offset, followed by the first four bytes of the hash of them all |
| `Format.EncodeEntry` | src/core/format.rs:499-523 | the stepwise encoder prints the fields in order, checksum and padding included |
| `Format.DecodeEntry` | src/core/format.rs:525-569 | the stepwise decoder computes the parse on every buffer, short and corrupt ones included |
| `Format.RecipientRoundTrip` | src/core/format.rs:612-655 | decoding the encoding of any recipient slot returns that slot |
| `Format.RecipientLayout` | src/core/format.rs:612-629 | every field of a printed keyring slot is at its offset, followed by its check bytes |
| `Format.EncodeRecipient` | src/core/format.rs:612-629 | the stepwise encoder prints the slot's fields in order |
| `Format.DecodeRecipient` | src/core/format.rs:631-655 | the stepwise decoder computes the parse on every buffer |
| `Format.OpByteRoundTrip` | src/core/format.rs:71-98 | operation codes are pairwise different and decode to their operation |
| `Format.HashInputLayout` | src/core/format.rs:691-708 | the 97 hashed bytes of a record are its sequence number, predecessor, operation code, target, data hash and timestamp, each at its offset |
| `Format.HashInputInjective` | src/core/format.rs:691-708 | the fixed-width hash input determines every hashed field of a record |
| `Format.RecordRoundTrip` | src/core/format.rs:741-779 | decoding the encoding of any chain record returns that record |
| `Format.RecordLayout` | src/core/format.rs:741-758 | on disk a record is the bytes its hash covers, then the hash, the signature and the occupied mark |
| `Format.ChainSlotRoundTrip` | src/core/format.rs:760-779 | an untouched slot decodes as empty and a written one as its record |
| `Format.EncodeRecord` | src/core/format.rs:741-758 | the stepwise encoder prints the record's fields in order |
| `Format.DecodeRecord` | src/core/format.rs:760-779 | the stepwise decoder computes the parse on every buffer |
| `Headers.HeaderRoundTrip` | src/core/format.rs:256-465 | decoding the encoding of a header reports another version, else returns it exactly when block size and count are positive, the data region fits 64 bits and the regions follow each other in order, and otherwise reports corruption |
| `Headers.EncodeHeader` | src/core/format.rs:256-316 | the stepwise encoder prints all the fields, the checksum and the padding |
| `Headers.DecodeHeader` | src/core/format.rs:318-465 | the stepwise decoder computes the parse on every buffer, with each error in the source's order; region ends are summed in 64 bits |
| `Allocator.BitsInBinary` | src/core/allocator.rs:34-50 | bit k of a byte is its binary digit of weight 2^k: least significant first |
| `Allocator.WithBitAtEffect` | src/core/allocator.rs:42-50 | the shift-and-mask update of one byte changes exactly one bit of the whole map |
| `Allocator.LowestIsUnique` | src/core/allocator.rs:62-74 | the k lowest free blocks in increasing order are one list only |
| `Allocator.BlockAllocator.constructor` | src/core/allocator.rs:14-17 | a new map of the right length has every block free |
| `Allocator.BlockAllocator.FromBytes` | src/core/allocator.rs:19-28 | loading keeps every bit below the block count and is the identity on a map of the right length |
| `Allocator.BlockAllocator.IsFree` | src/core/allocator.rs:34-40 | a block is free if and only if it is in the free set; out of range it is not |
| `Allocator.BlockAllocator.Set` | src/core/allocator.rs:42-50 | sets the one bit and no other |
| `Allocator.BlockAllocator.FreeCount` | src/core/allocator.rs:52-54 | counts the free set |
| `Allocator.BlockAllocator.OccupiedCount` | src/core/allocator.rs:56-60 | the complement of the free set within the block count |
| `Allocator.BlockAllocator.Allocate` | src/core/allocator.rs:62-74 | returns the min(k, free) lowest free blocks, strictly increasing, occupies exactly these |
| `Allocator.BlockAllocator.Release` | src/core/allocator.rs:76-82 | frees exactly the listed blocks; repeated and out-of-range indices are harmless |
| `Allocator.BlockAllocator.MarkOccupied` | src/core/allocator.rs:84-90 | occupies exactly the listed blocks in range |
| `Content.DataBlocksIsCeiling` | src/core/vault.rs:861-867 | the block count the store computes is the ceiling the reader computes, zero and exact multiples included |
| `Content.NeedInNumbers` | src/core/vault.rs:861-873 | a file of n bytes needs one block per 4076 bytes, and one more per 508 beyond the first eight |
| `Content.IndexBlocksAreFull` | src/core/vault.rs:590-623 | 508 pointers and their header fill a chunk of 4076 bytes exactly |
| `Content.OpenBlockBytes` | src/core/vault.rs:557-588 | a physical block opens to the plaintext it was written with |
| `Content.BlockIsBound` | src/core/vault.rs:557-588 | on disk a block is the length, the ciphertext made for this file and this block, and zeros; under another file or block it opens only to what the cipher makes of that very ciphertext |
| `Content.IndexRoundTrip` | src/core/vault.rs:590-617 | an index block parses to its successor and its list |
| `Content.IndexChainAscends` | src/core/vault.rs:882-908 | no index block is block 0, and each successor is 0 or larger than its predecessor, so 0 is an unambiguous end |
| `Content.IndexPartBounds` | src/core/vault.rs:890-906 | each index block but the last holds exactly 508 pointers and the last one ends the list |
| `Container.CellsDisjoint` | src/core/vault.rs:484-521 | the header, the bitmap and all slots and blocks are disjoint and lie inside the container |
| `Container.CellsCover` | src/core/format.rs:467-469 | and leave no gap: every byte of the container belongs to one of them |
| `Container.ContainerIsDetermined` | src/core/vault.rs:441-446 | two files holding the same records are the same bytes |
| `Container.WriteCell` | src/core/vault.rs:421-426 | writing one cell changes that record and no other |
| `Tables.ClearRow` | src/core/vault.rs:821-824 | clearing a slot removes exactly its key from the map the slots stand for |
| `Tables.FillRow` | src/core/vault.rs:768-776 | filling a free slot with a new key adds exactly that key |
| `Model.TotalNeedRemove` | src/core/vault.rs:994-1000 | the blocks a collection of files needs are those of any one file plus those of the rest |
| `Model.FreeStaysNonnegative` | src/core/vault.rs:875-880 | no command overdraws the block budget |
| `Model.AddThenDelete` | src/core/vault.rs:1028-1048 | deleting a file gives back exactly what adding it took |
| `Model.SameSizeUpdate` | src/core/vault.rs:994-1008 | an update of the same size always fits and is neutral |
| `Model.FilesHoldLastStored` | src/core/vault.rs:915-1048 | the map after any run holds under each name what the last accepted command about it stored |
| `Shelf.OwnershipIsExact` | src/core/vault.rs:652-669 | the occupied bits are exactly the data and index blocks of the stored files, and no block belongs to two files or to one file twice |
| `Shelf.SpaceAccounting` | src/core/vault.rs:384-386 | free blocks are the block count less what the stored files need |
| `Shelf.StoreFile` | src/core/vault.rs:856-913 | storing a file on free blocks keeps every other file and adds exactly this one |
| `Shelf.RemoveFile` | src/core/vault.rs:1028-1040 | releasing a file's blocks keeps every other file and drops exactly this one |
| `Shelf.Rekey` | src/core/vault.rs:800-818 | re-encrypting every owned block keeps all files readable under the new key |
| `Shelf.StoredFileIsReadable` | src/core/vault.rs:947-973 | every file of the map is readable from its blocks |
| `Chain.DifferentSlots` | src/core/vault.rs:518-521 | sequence numbers less than a window apart use different slots |
| `Chain.AppendKeepsWindow` | src/core/vault.rs:534-547 | one more record overwrites the oldest slot and keeps the rest of the window, however often the ring has wrapped |
| `Chain.AppendKeepsGenuine` | src/core/vault.rs:534-547 | a linked and signed record keeps the history genuine |
| `Chain.WalkForcesSuffix` | src/core/vault.rs:1056-1082 | going back over the links from the anchor, an accepted region holds the genuine records from some point on and nothing before it |
| `Chain.AcceptsTheUnbroken` | src/core/vault.rs:1050-1090 | the walk accepts exactly those regions in which each of the last N sequence numbers finds its slot empty or its own record there, hashed, signed and linked to the one before it, the last one anchored in the header |
| `Chain.PassingSlots` | src/core/vault.rs:1050-1090 | if the check passes, every sequence number s below next and not below next - N finds slot s mod N empty or holding record s, hashed and signed |
| `Chain.TamperEvidence` | src/core/vault.rs:1050-1090 | short of a collision the check accepts if and only if, over the last N sequence numbers, the slots are empty up to some point and genuine from there on, equal up to signature bytes that verify |
| `Chain.GenuinePasses` | src/core/vault.rs:1050-1090 | the ring left by any genuine history passes |
| `Image.Advance` | src/core/vault.rs:534-547 | logging keeps a vault healthy and advances the sequence number by one |
| `Image.StoreStep` | src/core/vault.rs:925-943 | storing a file in a free slot of a healthy vault leaves it healthy with that one file more |
| `Image.RemoveStep` | src/core/vault.rs:1033-1040 | removing a file leaves it healthy with that one file less |
| `Image.GrantSlot` | src/core/vault.rs:760-776 | filling a keyring slot leaves it healthy with that one grant more |
| `Image.Rotate` | src/core/vault.rs:810-846 | rotation leaves it healthy under the new key and password with the same files and all grants but the revoked one |
| `Image.HealthySpace` | src/core/vault.rs:384-386 | the free blocks on disk are the model's budget |
| `Image.HealthyChainPasses` | src/core/vault.rs:1050-1090 | a healthy vault passes the chain check |
| `Vaults.LogSuffix` | src/core/vault.rs:435-437 | what was logged since an earlier moment, replayed on the file as it was then, gives the file as it is now |
| `Vaults.Vault.WriteAt` | src/core/vault.rs:421-426 | writes one cell and logs exactly that range |
| `Vaults.Vault.WriteHeader` | src/core/vault.rs:473-476 | the header on disk becomes the one in memory |
| `Vaults.Vault.WriteBitmap` | src/core/vault.rs:478-482 | the bitmap on disk becomes the allocator's |
| `Vaults.Vault.ReadSlot` | src/core/vault.rs:488-493 | reads the entry of that slot |
| `Vaults.Vault.WriteSlot` | src/core/vault.rs:495-499 | replaces that entry and nothing else |
| `Vaults.Vault.ReadRecipientSlot` | src/core/vault.rs:505-510 | reads that keyring slot |
| `Vaults.Vault.WriteRecipientSlot` | src/core/vault.rs:512-516 | replaces that keyring slot and nothing else |
| `Vaults.Vault.ReadChainSlotAtSeq` | src/core/vault.rs:523-529 | reads slot seq mod N of any file of the right shape |
| `Vaults.Vault.AppendSignedChainRecord` | src/core/vault.rs:534-547 | the record written, field by field: next sequence number, anchor as predecessor, operation, target, data hash and time as given, its hash over these, the admin's signature over the hash; it goes into its ring slot, and the anchor moves, in memory and on disk |
| `Vaults.Vault.WritePhysicalBlock` | src/core/vault.rs:557-568 | stores a plaintext of up to 4076 bytes in that block; a longer one is refused with nothing written |
| `Vaults.Vault.ReadPhysicalBlock` | src/core/vault.rs:570-588 | opens that block, with the source's error for blocks out of range or malformed |
| `Vaults.Vault.WriteIndexBlock` | src/core/vault.rs:590-598 | stores successor and pointers in that block |
| `Vaults.Vault.ReadIndexBlock` | src/core/vault.rs:600-617 | reads back successor and pointers, with the source's errors |
| `Vaults.Vault.StoreNewContent` | src/core/vault.rs:856-913 | succeeds if and only if the contents fit, on the lowest free blocks, data blocks before index blocks; otherwise changes nothing |
| `Vaults.Vault.CollectDataBlocks` | src/core/vault.rs:625-647 | returns the file's data blocks in order; the walk over the overflow chain ends |
| `Vaults.Vault.CollectAllBlocks` | src/core/vault.rs:652-669 | returns exactly the blocks the file owns, data and index |
| `Vaults.Vault.FindSlotByName` | src/core/vault.rs:675-683 | finds the occupied slot of that name, or there is none |
| `Vaults.Vault.FindFreeSlot` | src/core/vault.rs:685-693 | finds a free slot, or there is none |
| `Vaults.Vault.AddFile` | src/core/vault.rs:915-945 | accepted exactly for an admin, a new name of 1 to 128 bytes, a free slot and enough blocks, each refusal in the source's order with nothing changed; then exactly this file more, one entry with this id, size, hash and times, and one log record with all its fields |
| `Vaults.Vault.UpdateFile` | src/core/vault.rs:975-1026 | accepted exactly for an admin, a stored name and enough blocks, the file's own included; then only these contents are new: slot, id and creation time stay, one log record |
| `Vaults.Vault.DeleteFile` | src/core/vault.rs:1028-1048 | accepted exactly for an admin and a stored name; then exactly that file less, its entry a tombstone in place, one log record |
| `Vaults.Vault.ReadFile` | src/core/vault.rs:947-973 | returns the contents the map holds, or that the file was not found |
| `Vaults.Vault.ListFiles` | src/core/vault.rs:706-717 | lists every stored file once, in slot order, each line with the name, size and two times of its slot |
| `Vaults.Vault.IsGranted` | src/net/sync.rs:44-48 | whether exactly this pair of keys is in the keyring |
| `Vaults.Vault.GrantAccess` | src/core/vault.rs:760-782 | accepted exactly for an admin, a signing key not granted yet and fewer than 16 grants; then one grant more, its slot unlocks the content key, one log record about the hash of the peer's key |
| `Vaults.Vault.ReadEveryBlock` | src/core/vault.rs:798-807 | reads, in the clear, every block any file owns |
| `Vaults.Vault.RewriteBlocks` | src/core/vault.rs:816-818 | re-encrypts exactly those blocks under the new key; every other block, and every other cell, keeps its bytes |
| `Vaults.Vault.RevokeAccess` | src/core/vault.rs:793-850 | accepted exactly for an admin and a granted signing key; then same files, file table and bitmap under the new key, every grant but the revoked one, the supplied password opens the new admin slot, one log record |
| `Vaults.Vault.WalkSlots` | src/core/vault.rs:1056-1082 | the loop over the slots computes the walk, on any file of the right size |
| `Vaults.Vault.VerifyChain` | src/core/vault.rs:1050-1090 | on any file of the right size it passes exactly the unbroken chains: each of the last N sequence numbers finds its slot empty or its own verified record there |
| `Vaults.Vault.IntactChain` | src/core/vault.rs:1050-1090 | the chain of a vault only its admin has written passes |
| `Vaults.Vault.VerifyIntegrity` | src/core/vault.rs:1050-1096 | a file whose chain is broken is rejected, whatever else it holds; a vault only its admin has written passes |
| `Vaults.Vault.TakeChangeLog` | src/core/vault.rs:435-437 | hands over the whole log and starts a new one at the present file |
| `Vaults.Vault.ExportFull` | src/core/vault.rs:441-446 | the container as it is |
| `Vaults.Vault.ApplyRemotePatch` | src/core/vault.rs:454-471 | the file becomes the replay of the ranges; outcome and in-memory header are those of reading it back, whatever it holds by then; on a healthy container a replica's handle stands for it exactly when its key is the container's |
| `Vaults.ReloadedParts` | src/core/vault.rs:460-470 | a healthy container yields its own header and bitmap |
| `Vaults.FileTamperEvidence` | src/core/vault.rs:1050-1090 | tamper evidence for any file of the right size under a healthy vault's header |
| `Opening.WriteFresh` | src/core/vault.rs:255-284 | the sequential writes of `create` land on the computed offsets, for every capacity |
| `Opening.FreshIsHealthy` | src/core/vault.rs:208-284 | a new container is healthy and empty, with the genesis record as its history |
| `Opening.GeometryInNumbers` | src/core/vault.rs:161-171 | one block per 4096 bytes, one file slot per 16 KiB between 4 and 4096, four chain slots to each file slot |
| `Opening.Create` | src/core/vault.rs:146-287 | fails exactly for overlong names and descriptions and for less than one block, else yields an empty admin vault with this name and a genesis record with all its fields |
| `Opening.OwnPasswordYieldsKey` | src/core/vault.rs:299-318 | read from the bytes of a healthy container, the admin's own password yields its content key |
| `Opening.Open` | src/core/vault.rs:293-331 | the exact outcome and every error on every file and password; on a healthy vault the admin's password opens all its files and grants |
| `Opening.RecipientKeyInHealthy` | src/core/vault.rs:345-366 | on a healthy container an identity yields the content key exactly when some grant is made out to its encryption key |
| `Opening.OpenAsRecipient` | src/core/vault.rs:338-373 | the exact outcome and every error on every file and identity; opens a healthy vault, read-only, for exactly the peers some grant is made out to |
| `Runs.Perform` | src/core/vault.rs:760-1048 | each command does on the vault what it does on the model; a refused one leaves file, memory copies, keys and change log as they were |
| `Runs.Run` | src/core/vault.rs:760-1048 | over every run the vault simulates the model, answer by answer, and logs all it writes |
| `Runs.Lifetime` | src/core/vault.rs:146-1048 | from `create` on, reads return what was stored last and the listing is the set of names present, each once |
| `Runs.RevokeThenOpen` | src/core/vault.rs:793-850 | after a revocation a peer gets in exactly when another grant is made out to it, and reads the same files; the supplied password opens the vault |
| `Runs.RevocationTakesOneGrant` | src/core/vault.rs:820-832 | a revocation takes away one grant and no file |
| `Journal.PatchJournal.Record` | src/net/journal.rs:33-41 | appends the patch; what is kept is the newest entries, as many as there are up to the capacity |
| `Journal.SinceIsTail` | src/net/journal.rs:62-72 | where entries are split by age at s, the ranges since s are those of the younger ones, all of them, in order |
| `Journal.PatchJournal.RangesSince` | src/net/journal.rs:49-72 | answers exactly the peers with a nonzero sequence number not below the tag of the oldest entry kept, with every range recorded since and no other |
| `Journal.RecordsInOrder` | src/net/journal.rs:33-41 | entries are tagged in strictly increasing order, with sequence numbers of the past |
| `Journal.ReplayCatchesUp` | src/net/journal.rs:49-72 | the combined patch takes the state at the peer's sequence number to the state after the newest recorded mutation, gaps and extra older writes notwithstanding |
| `Journal.RecordsAfterRecord` | src/net/journal.rs:33-41 | recording a drained change log, with eviction, keeps the journal a record of the history |
| `Journal.RecordsUnderExtension` | src/tui/widgets/network_tab.rs:154-175 | unrecorded mutations leave the journal a record of the history |
| `Journal.ExtensionKeepsHistory` | src/core/vault.rs:421-437 | new writes lead from the last state to the next and leave earlier states as they were |
| `Serving.Server.constructor` | src/tui/widgets/vaults/unlocked.rs:75-94 | a session starts with nobody served, nothing unrecorded and its history at the present container |
| `Serving.Server.Mutate` | src/core/vault.rs:760-1048 | a refused command changes nothing; an accepted one extends history by one state and the change log by exactly the writes that lead there |
| `Serving.Server.RecordPatchIfServing` | src/tui/widgets/vaults/unlocked.rs:147-154 | while serving, the whole change log moves into the journal under that sequence number, evicting the oldest entry beyond 64; the journal stays a record of the history |
| `Session.DrainedIsRecorded` | src/tui/widgets/vaults/unlocked.rs:173-177 | mutating and then draining is one recorded mutation |
| `Serving.Server.Submit` | src/tui/widgets/vaults/unlocked.rs:156-240 | add, update and delete: the model's answer and effect; while serving, the newest journal entry holds these writes after all that were unrecorded, and nothing is left unrecorded |
| `Serving.Server.Share` | src/tui/widgets/network_tab.rs:154-175 | grants and revocations: the model's answer and effect, their writes left unrecorded and the journal as it was |
| `Serving.Server.HandleCommand` | src/cli/commands/network.rs:131-174 | an edit is carried out and recorded; every other line, malformed ones included, changes nothing; only `quit` stops serving |
| `Serving.Server.StartServing` | src/tui/widgets/network_tab.rs:177-183 | serving starts with an empty journal and changes nothing else, unrecorded writes included |
| `Serving.Server.StopServing` | src/tui/widgets/network_tab.rs:185-189 | stopping drops the journal and nothing else |
| `Serving.Server.Reopen` | src/core/vault.rs:293-331 | locking and unlocking keeps file, files and grants and drops journal and change log |
| `Serving.Server.Poll` | src/tui/widgets/network_tab.rs:107-125 | strangers are refused, covered peers get every range recorded since, all others the whole container; nobody answers unless serving |
| `Protocol.MessageLayout` | src/net/protocol.rs:62-94 | tag, numbers and contents of each message are where the source puts them |
| `Protocol.MessageRoundTrip` | src/net/protocol.rs:62-155 | decoding inverts encoding for every message whose lengths fit their fields and, error texts aside, only for those |
| `Protocol.AcceptedIsPrefix` | src/net/protocol.rs:96-155 | whatever is accepted under tags 1 to 4, and under tag 5 with a valid text, starts with the encoding of what was returned |
| `Protocol.FramedIsEncodable` | src/net/protocol.rs:30-37 | every message that fits a frame survives the trip |
| `Protocol.Encode` | src/net/protocol.rs:62-94 | the appending encoder prints the message |
| `Protocol.Decode` | src/net/protocol.rs:96-155 | the decoder computes the parse on every buffer and never reads out of bounds |
| `Protocol.DecodeRanges` | src/net/protocol.rs:123-134 | the loop reads exactly the announced number of ranges or reports truncation |
| `Protocol.Stream.WriteFrame` | src/net/protocol.rs:30-37 | appends one frame, or refuses a payload over the limit and writes nothing |
| `Protocol.Stream.ReadFrame` | src/net/protocol.rs:18-28 | takes the next frame off the stream; whatever it returns was framed at the front of it |
| `Protocol.Stream.ReadAll` | src/net/protocol.rs:18-37 | reading a stream of written frames recovers the same sequence |
| `Channel.NoNonceTwice` | src/net/handshake.rs:138-153 | the nonces of both directions are pairwise different |
| `Channel.SecureChannel.SendNonce` | src/net/handshake.rs:138-144 | yields twice the send counter plus the parity, little-endian with four zeros, and advances the counter |
| `Channel.SecureChannel.RecvNonce` | src/net/handshake.rs:146-153 | yields twice the receive counter plus the other parity, little-endian with four zeros, and advances the counter |
| `Channel.SecureChannel.Send` | src/net/handshake.rs:155-162 | puts the encrypted message on the wire as one frame, or refuses it if too large, its counter spent either way |
| `Channel.SecureChannel.Recv` | src/net/handshake.rs:164-171 | on every stream: frames cut short or oversized fail and leave the counter, any other spends it and is opened with the next nonce |
| `Channel.Link.Recv` | src/net/handshake.rs:155-171 | receives the other side's next plaintext |
| `Channel.Converse` | src/net/handshake.rs:77-172 | over every interleaving each receive takes one message exactly when the other side has said more than was received, and what each side heard is that stretch of what the other said |
| `Channel.HelloRoundTrip` | src/net/handshake.rs:47-65 | hellos and strings of 160 bytes correspond one to one, each field at its offset |
| `Channel.Respond` | src/net/handshake.rs:119-136 | on every stream: the responder answers a well-formed hello with a good signature and no other, and takes the caller to be its signer |
| `Channel.Settle` | src/net/handshake.rs:94-117 | on every stream: the initiator goes on only with a well-formed, signed hello of the peer it expects |
| `Channel.SameSessionKey` | src/net/handshake.rs:174-178 | both sides derive the hash of their common secret and the label |
| `Channel.KeyBindsSecret` | src/net/handshake.rs:174-178 | connections with different shared secrets have different keys, unless the hash collides on exactly these inputs |
| `Channel.Connect` | src/net/handshake.rs:94-136 | the responder learns the caller; the initiator goes on exactly when it reached the expected peer, and then both hold the hash of their shared secret as key, with opposite parities |
| `Session.OneStep` | src/tui/widgets/vaults/unlocked.rs:156-240 | every event does to the vault what its command does, moves the sequence number by at most one, and keeps a recording session current |
| `Session.ModelFollows` | src/core/vault.rs:760-1048 | at every moment of a run the vault is the fold of the commands so far |
| `Session.EventsAreCommands` | src/core/vault.rs:760-1048 | without locking, joins, reconnects and serving leave no trace in the vault: a run is its commands alone |
| `Session.EverySeqIsPassed` | src/core/vault.rs:401-403 | a run passes through every sequence number between its first and its present one |
| `Session.ChangesAreJournaled` | src/tui/widgets/vaults/unlocked.rs:147-154 | command by command: while serving, an accepted addition, update or deletion is the newest entry, tagged with the sequence number before it, and leaves nothing unrecorded; a grant or a revocation leaves the journal as it was and its writes unrecorded |
| `Session.StaysCurrent` | src/cli/commands/network.rs:131-174 | a session of additions, updates, deletions, joins and reconnects that begins current is current at every moment |
| `Session.CatchUpExactly` | src/net/sync.rs:36-131 | coming back succeeds exactly for a peer its own copy and the admin both know, not further back than the oldest entry, whose patch fits a frame; every error otherwise |
| `Session.AlwaysTidy` | src/net/journal.rs:33-41 | at every moment of a run the journal holds at most 64 entries, tagged in order with sequence numbers of the past |
| `Session.JournalAfter` | src/net/journal.rs:33-41 | over a recording session the journal gains one entry for each accepted command, tagged one after the other, and keeps the newest 64 |
| `Session.CoversTheLast64` | src/net/journal.rs:49-61 | after such a session the journal covers exactly the peers at most 64 mutations behind |
| `Session.ConsoleReconnects` | src/net/sync.rs:36-131 | in such a session every peer that comes back and is told it succeeded holds, from then on, the very bytes the admin holds at that moment |
| `Session.SessionCatchesUp` | src/net/sync.rs:36-131 | in such a session, once it has recorded something, a peer both sides know catches up to the very bytes the admin holds exactly when it is at most 64 mutations behind and the patch fits a frame |
| `Session.SeqCounts` | src/core/vault.rs:534-547 | over any stretch of a run the sequence number grows by the number of accepted commands |
| `Session.MissedCommandsArrive` | src/net/sync.rs:36-131 | a granted peer that held the admin's container at some moment of such a session and missed between one and 64 accepted commands is told it succeeded, and holds the present bytes |
| `Session.RunIsOnward` | src/net/journal.rs:49-72 | over any stretch of a run no copy is lost, changes hands or goes back in time |
| `Replication.PatchedState` | src/net/journal.rs:49-72 | the patched state is the one after the newest recorded mutation; it is the admin's container if and only if nothing is unrecorded or the peer was current already |
| `Replication.StatesDiffer` | src/core/vault.rs:401-403 | states at different sequence numbers are different bytes |
| `Replication.StandsHealthy` | src/core/vault.rs:401-403 | whatever stands in the past of a vault is a healthy container whose own header names its sequence number |
| `Replication.StandsAlike` | src/core/vault.rs:401-403 | one sequence number, one state: the same bytes and the same vault |
| `Replication.PatchLands` | src/net/journal.rs:49-72 | the journal's patch takes a copy that stands in the past to another one that does, further on |
| `Replication.Deliver` | src/net/sync.rs:50-63 | a message arrives as it was sent, or not at all if it does not fit a frame |
| `Replication.ApplyIncoming` | src/net/sync.rs:123-131 | patches are applied, with the outcome of reading the file back; every other message leaves the file as it was, with the source's answer to each |
| `Replication.ServeStream` | src/net/sync.rs:36-74 | what a caller is told, and how that ends, whoever calls and whatever it says first |
| `Replication.Ask` | src/net/sync.rs:36-74 | over a fresh connection the peer gets the serving side's answer to its own identity and sequence number |
| `Replication.OpenCopy` | src/core/vault.rs:338-373 | a copy that stands in the past opens for exactly the peers granted then, to the vault as it was then |
| `Replication.FirstCopy` | src/net/sync.rs:93-113 | a granted peer obtains the whole container and opens it to the admin's files; each refusal as the source gives it |
| `Replication.CatchUp` | src/net/sync.rs:36-131 | the exact outcome of a reconnect, and the state it then reaches |
| `Replication.TakePatch` | src/core/vault.rs:454-471 | an open handle of a replica takes the patch: the file becomes the later state, and the handle stands for it exactly when both states have one content key |
| `Replication.Deployment.Join` | src/net/sync.rs:93-113 | the exact outcome; adds a copy equal to the present container, which the peer reads in full, or changes nothing |
| `Replication.Deployment.Reconnect` | src/net/sync.rs:36-131 | the exact outcome; moves the copy to the state after the newest recorded mutation, which is the present one if and only if nothing is unrecorded or it was current; otherwise changes nothing |
| `Replication.Deployment.OpenReplica` | src/core/vault.rs:338-373 | a peer opens its replica exactly when the state it stands at grants it access, and then reads the admin's files as of that sequence number |
| `Replication.ServerIsTidy` | src/net/journal.rs:33-41 | the journal of a serving vault is tidy |
| `Replication.Deployment.Change` | src/tui/widgets/vaults/unlocked.rs:156-240 | an admin command does what the model says; additions, updates and deletions are recorded, grants and revocations are not; every copy stays a past state |
| `Replication.Deployment.Step` | src/net/sync.rs:36-131 | each event has the exact outcome and effect `Happens` describes |
| `Replication.Deployment.Run` | src/net/sync.rs:36-131 | every run returns its answers and a trace of moments, one per event boundary, from the old state to the new, each event as `Happens` says; at each moment container and copies stand in one and the same past |
| `Replication.CopyWasTheVault` | src/core/vault.rs:401-403 | at every moment of a run every copy no older than the run is, bytes and vault, what the admin's container was at an earlier moment of the trace or is right then |
| `Replication.AllCopiesWereTheVault` | src/core/vault.rs:401-403 | in a run that goes back to the beginning of a vault, that is so of every copy |
| `Replication.ReplicasArePastStates` | src/core/vault.rs:401-403 | every replica on disk is what its copy says, and its own header names the sequence number it stands at |
| `Replication.Found` | src/core/vault.rs:146-287 | a new deployment begins with the container `create` writes, nobody served and no peers |
| `Replication.Story` | src/net/sync.rs:36-131 | for every run that begins with `create`: the trace begins with the new container, every event is as `Happens` says, the vault is the fold of the commands, and every copy at every moment is what the vault was at an earlier moment |
| `Replication.GrantGoesUnrecorded` | src/tui/widgets/network_tab.rs:154-164 | a grant leaves a peer as able to catch up as before, with something unrecorded |
| `Replication.GrantIsMissed` | src/tui/widgets/network_tab.rs:154-164 | whenever a peer could have caught up just before a grant, grant and reconnect both succeed and the replica differs from the admin's container |

## Left out

- The algorithms behind the primitives (SHA-256, AES-GCM, Argon2, X25519, Ed25519), key files and randomness: parameters with inverse laws.
- A malformed admin key in a header: `verify_signature` reports `CryptoFailure` there, folded into the failing signature check here.
- Argon2 parameters in a forged header that the derivation rejects: deriving a key always succeeds here.
- File-system failures, partial writes, crash consistency, sparse files and several processes on one file.
- Sockets, tasks, threads and the request queue of the terminal interface: a request is answered in one step.
- Rendering, forms, key handling, session timeout, logging, paths, argument parsing, byte-size formatting, slugs and invite codes.
- `push_patch`, `peek_summary`, `summary`, `used_bytes` and `capacity_bytes`: one-line wrappers.
- Buffers are sequences and the file is a sequence of bytes: seek positions and aliasing of buffers are not modelled.
- Vaults.Vault.AddFile: contents of 2^63 bytes and more are excluded, and so is sequence number 2^64 - 1; the same holds of the other mutating methods.
- Vaults.Vault.VerifyIntegrity: its chain half is exact on every file; that it rejects tampered contents is not shown, which would rely on authenticated decryption, of which no law is assumed.
- Opening.Create: requires a container size below 2^64; for larger capacities the source's own offset sums overflow.
- Opening.Open: its outcome is that of unlocking the admin slot; that no other password unlocks it is not shown, since no law rules out two passwords with one key-encryption key.
- Vaults.Vault.ReadFile: on a healthy vault only; contents tampered with, which the source answers with `IntegrityViolation`, are outside `Valid`.
- Serving.Server.Reopen: a failed attempt to unlock is not an event of a run; it leaves the file as it is.
- Serving.Server.HandleCommand: usage errors and unreadable source files are one malformed line with one error; the printed texts are not modelled.
- Channel.SecureChannel.Recv: the wait for a frame that has not arrived yet is an end of stream here.
- Replication.Deployment.Run: connections are served one after the other and messages are not lost half-way; a peer that gives up in the middle has asked nothing.
- Replication.TakePatch: a peer that keeps a replica open between patches is not an event of a run; in a run the replica is opened anew each time.
- Protocol.MessageRoundTrip: for error texts of 2^32 bytes and more only the encoding side is settled; how much longer `from_utf8_lossy` can make a text is not assumed.
