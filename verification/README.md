# open_pg_tde, modelled in Dafny

open_pg_tde encrypts PostgreSQL's write-ahead log (WAL) and relation files. This project models its
hardest parts and proves what they promise, for all inputs and over whole runs:

* **Encrypted WAL over many server runs** (`StreamCipher`, `WalIv`, `WalKeys`, `WalCrypt`, `WalRuns`,
  `WalWrites`, `WalSmgr`, `WalContexts`, `WalPublish`, `WalPublishedRuns`, `WalServerKey`). Each server
  start appends a WAL key without a start; the first eligible write fixes the start; processes keep linked
  caches of ranges and crypt every buffer piecewise.
* **Relation keys** (`Keys`, `Seals`, `KeyMap`, `KeyFileRewrite`, `PrincipalKeys`). The key map file as a
  partial map, rewriting it under a new principal key or file format, crashes on the way, and the
  principal keys of a cluster with their cache and their default.
* **WAL reader** (`PageFormat`, `DecodeBuffer`, `Reassembly`, `RecordReader`, `RecordDecoder`,
  `DecodedRecords`, `RecordFormat`). The circular decode buffer, reassembly of records over pages, parsing
  and decoding of records.
* **Tar pipeline** (`TarChunks`, `TarParser`, `TarInject`, `TarArchive`). A resumable parser, an
  injector of recovery settings, an archiver.
* **Block storage, providers, table hierarchies** (`BlockCrypt`, `BlockStorage`, `Providers`,
  `EncryptionMix`).

How it is built. State that the program changes in place is a class with methods; each method is
proved against a function on values, and the promises are proved about those functions, over every
sequence of steps. Cryptography is idealised: the AES block function is a parameter (CTR mode is
section 6.5 and appendix B of NIST SP 800-38A), page encryption (XTS, NIST SP 800-38E, or CBC) is any
pair of inverse functions for each key and vector, and a GCM seal (section 7 of NIST SP 800-38D) opens
only under the same key and additional data. Bytes are integers below 256; 32- and 64-bit wrap-around
is written out where the program has it. `dafny verify dfyconfig.toml` checks everything.

## What the proofs found

* *Invalidation never happens in normal operation.* A comment says that a new start may invalidate
  the entry before it, and on replicas will (src/access/open_pg_tde_xlog_keys.c:134-138). When every
  writer's cache comes from its own start-up, no entry is ever invalidated: `WalRuns.NoKeyIsInvalidated`.
* *An invalidated entry can no longer be opened.* The range type is authenticated but rewritten in
  place. Fixing a start leaves every entry openable if and only if it invalidates nothing
  (`WalServerKey.FixingKeepsOpen`), and rotating the server key succeeds if and only if every entry opens
  (`WalServerKey.WalKeyDirectory.RotateServerKey`).
* *Timelines that agree modulo 65536 share counter blocks*, and nothing else does:
  `WalIv.CounterBlocksNeverCollide`.
* *A page reads back unless its ciphertext starts with 32 zero bytes* and differs from the page:
  `BlockCrypt.PageRoundTrip` and, over every run, `BlockStorage.ReadsReturnThePage` give the exact
  condition. `BlockCrypt.PageIsLost` gives, for any cipher, key and block, the pages that break it.
* *The decoder sums announced lengths in 32 bits.* An accepted record holds what it announces if and only
  if the main data announced is not longer than what is left (`RecordDecoder.AcceptedFits`), and then it
  was put together from the fragments it is parsed into (`RecordFormat.AcceptedIff`);
  `RecordFormat.WrappedLengthsAreAccepted` is a record where it is longer.
* *A block image longer than a page is accepted* if it says that it has a hole: the hole's length is the
  16-bit difference (fetools/pg18/xlogreader.c:1841). `RecordDecoder.ImageAcceptedIff` says what is accepted,
  and that image and hole make up a page if and only if the image is not longer than one.
* *Deleting a provider may check one provider and delete another*: one lookup ignores case
  (src/catalog/tde_keyring.c:804), the other does not (src/catalog/tde_keyring.c:704).
  `Providers.UsedIsDeletedIff` says exactly when a provider in use is deleted,
  `Providers.NamesDifferingInCasePart` gives the names for which it is.
* *The settings appended to postgresql.auto.conf are sent with the member's old size*
  (fetools/pg16/pg_basebackup/bbstreamer_inject.c:150-154), against the rule that all chunks of a member
  carry the same details (fetools/pg16/pg_basebackup/bbstreamer.h:62-69). `TarInject.DetailsKeptIff` says
  exactly when the rule is kept, `TarInject.DetailsBreak` is a stream that breaks it. The archiver does
  not look at the details of contents, so the archive is right all the same (`TarArchive.Pipeline`).
* *A write context is keyed once in the life of a process.* It holds the newest key as long as the
  postmaster, which alone outlives a soft restart, does not write itself:
  `WalContexts.ContextsHoldTheNewestKey` and `WalContexts.StepKeepsContexts`.
* *After a short read the rest of the buffer is masked too*
  (src/access/open_pg_tde_xlog_smgr.c:469-474), as `WalSmgr.WalStorage.SegRead` states.

## Model

| member | source | states |
|---|---|---|
| `StreamCipher.CounterBlockInjective` | src/encryption/enc_aes.c:409-421 | two counter blocks are equal exactly when vector prefix and block number are |
| `StreamCipher.CounterBlockLayout` | src/encryption/enc_aes.c:409-421 | byte by byte: twelve bytes of the vector, then the 32-bit counter, low byte first |
| `StreamCipher.CtrXorOfPieces` | src/encryption/enc_tde.c:87-179 | crypting the pieces of any split one after the other equals crypting the whole |
| `StreamCipher.CtrXorInvolutive` | src/encryption/enc_tde.c:87-179 | crypting twice at one position gives the data back |
| `StreamCipher.EncryptedZeroBlocks` | src/encryption/enc_aes.c:400-424 | the filled and encrypted counter blocks are the keystream of the block range, under the key of the context or else the key given |
| `StreamCipher.EncryptEcb` | src/encryption/enc_aes.c:112-141 | every block of any buffer of whole blocks is replaced, in place, by its encryption under the key the context holds, or under the key given if there is no context yet |
| `StreamCipher.StreamCrypt` | src/encryption/enc_tde.c:109-179 | the batched loop equals the per-byte XOR with the keystream at the absolute offset, under the key of the context or else the key given, in place or into another buffer, and touches nothing else |
| `StreamCipher.XorStream` | src/encryption/enc_tde.c:87-101 | one batch is masked, whether or not input and output are one buffer |
| `WalIv.FallbackAgrees` | src/access/open_pg_tde_xlog_smgr.c:640-708 | the two-halves-plus-carry computation equals the 128-bit addition for all inputs |
| `WalIv.PrefixIsASum` | src/access/open_pg_tde_xlog_smgr.c:640-708 | the vector as a number: the base without bit 32, plus the segment 32 bits up and the timeline 112 bits up, modulo 2^128 |
| `WalIv.CounterBlocksNeverCollide` | src/access/open_pg_tde_xlog_smgr.c:640-708 | under one base vector counter blocks are equal if and only if timeline modulo 65536, segment and block are |
| `WalKeys.TilesInOrder` | src/access/open_pg_tde_xlog_keys.c:391-421 | linked ranges are non-empty, disjoint and in order |
| `WalKeys.ChainIsSound` | src/access/open_pg_tde_xlog_keys.c:283-421 | the linked cache tiles everything from the first start, and looking a position up in it gives the key that the file's entries give |
| `WalKeys.SetLastLocationIsLocal` | src/access/open_pg_tde_xlog_keys.c:109-173 | fixing a start after all used starts changes the newest entry only and keeps the file in order |
| `WalKeys.GoverningAfterFix` | src/access/open_pg_tde_xlog_keys.c:109-173 | positions before the fixed start keep their key, the others get the new one |
| `WalKeys.IncrementalFetch` | src/access/open_pg_tde_xlog_keys.c:283-361 | fetching from the write location onto the old cache gives the chain of a full rebuild |
| `WalKeys.WalKeyStore.CreateRange` | src/access/open_pg_tde_xlog_keys.c:183-218 | one entry with an unset start is appended |
| `WalKeys.WalKeyStore.SetLastRangeLocation` | src/access/open_pg_tde_xlog_keys.c:109-173 | the start is written in place, and the entry before is invalidated if it does not start earlier |
| `WalKeys.WalKeyStore.AddRange` | src/access/open_pg_tde_xlog_keys.c:391-421 | the new range is linked and ends the one before it |
| `WalKeys.WalKeyStore.FetchKeys` | src/access/open_pg_tde_xlog_keys.c:283-361 | the scan links exactly the used entries from the given location on, and one stub range if the file has no entries |
| `WalCrypt.CryptByteInvolutive` | src/access/open_pg_tde_xlog_smgr.c:482-620 | crypting a position twice under its key gives the byte back |
| `WalCrypt.ClippedBounds` | src/access/open_pg_tde_xlog_smgr.c:544-602 | the clipped bounds cover exactly the bytes of the buffer that lie in the range, also across timelines and at the segment's end, and both assertions hold |
| `WalCrypt.NotCoveredEarlier` | src/access/open_pg_tde_xlog_smgr.c:528-619 | no position is in two ranges, so no byte is crypted twice |
| `WalCrypt.CryptRange` | src/access/open_pg_tde_xlog_smgr.c:537-618 | one turn of the loop crypts the bytes of one range |
| `WalCrypt.CryptBuffer` | src/access/open_pg_tde_xlog_smgr.c:482-620 | exactly the bytes in an encrypted range change, once, under that range's key at their absolute position |
| `WalCrypt.CryptedOverCopy` | src/access/open_pg_tde_xlog_smgr.c:333-353 | over a copy of the buffer this is every byte under the key of its position |
| `WalRuns.RefreshIsChain` | src/access/open_pg_tde_xlog_smgr.c:486-519 | whatever cache a process holds, refreshing it gives the full chain, which gives each position its key |
| `WalRuns.WriteKeepsKeys` | src/access/open_pg_tde_xlog_smgr.c:392-453 | a write keeps key file, published start and cache in agreement |
| `WalRuns.WriteUsesGoverningKey` | src/access/open_pg_tde_xlog_smgr.c:431-453 | each byte is written under the key that the key file gives its position afterwards |
| `WalRuns.WriteKeepsGoverning` | src/access/open_pg_tde_xlog_smgr.c:392-426 | other positions keep their key unless a start is fixed at or before them |
| `WalRuns.StartKeepsKeys` | src/access/open_pg_tde_xlog_smgr.c:235-297 | a server start changes no position's key |
| `WalRuns.RunKeepsInv` | src/access/open_pg_tde_xlog_smgr.c:235-477 | every reachable state has every live byte on disk under the key of its position and every cache in agreement with the file |
| `WalRuns.ReadsReturnLastWritten` | src/access/open_pg_tde_xlog_smgr.c:235-477 | over any number of starts, forks, child start-ups, reads and writes, whole or cut off by a crash, any process reads the last plaintext written at each position not cut off by a later key start |
| `WalRuns.KeyFileStaysOrdered` | src/access/open_pg_tde_xlog_keys.c:109-173 | in every run the used starts strictly increase in file order, every cache tiles, and an incremental refresh equals a rebuild |
| `WalRuns.NoKeyIsInvalidated` | src/access/open_pg_tde_xlog_keys.c:134-162 | in every run no entry is invalidated |
| `WalRuns.WritesLoseOnlyPastTheStart` | src/access/open_pg_tde_xlog_smgr.c:392-426 | a live byte is lost to a write elsewhere if and only if that write fixes a start at or before it |
| `WalRuns.CutOffReadsMixed` | src/access/open_pg_tde_xlog_smgr.c:392-426 | what any process reads at a cut-off position: the byte under the masks of its old and of the newest key, so that it survives if and only if the two masks agree |
| `WalWrites.KeyOfTheLastStart` | src/access/open_pg_tde_xlog_keys.c:330-352 | a position belongs to the entry with the last start at or before it, masked if and only if that entry is encrypted |
| `WalWrites.NoKeyBeforeTheFirstStart` | src/access/open_pg_tde_xlog_keys.c:330-352 | before the first start nothing is masked |
| `WalWrites.StartIsFixedIff` | src/access/open_pg_tde_xlog_smgr.c:392-429 | a write fixes the newest entry's start, at its own position, if and only if that start is open, the server is not in crash recovery and every start lies before the write; otherwise nothing changes |
| `WalWrites.CrashRecoveryFixesNothing` | src/access/open_pg_tde_xlog_smgr.c:398-415 | during crash recovery a write leaves every key state as it is |
| `WalWrites.FixedStartGoverns` | src/access/open_pg_tde_xlog_smgr.c:415-428 | once fixed, everything from the start on belongs to the newest entry |
| `WalWrites.EncryptedStartMasks` | src/access/open_pg_tde_xlog_smgr.c:269-272 | after a start with encryption on, what any process first writes lies on disk masked under the new key |
| `WalWrites.PlainStartUnmasks` | src/access/open_pg_tde_xlog_smgr.c:273-276 | after a start with encryption off behind an encrypted entry, it lies on disk as it is |
| `WalWrites.PlainStartGoesOn` | src/access/open_pg_tde_xlog_smgr.c:277-281 | any other start with encryption off creates nothing and publishes the last start |
| `WalSmgr.StoredIsStep` | src/access/open_pg_tde_xlog_smgr.c:431-453 | what the write method leaves on disk is what a step of the run model leaves |
| `WalSmgr.KeysReady` | src/access/open_pg_tde_xlog_smgr.c:431-477 | in every reachable state the preconditions of the read and write methods hold |
| `WalSmgr.WalStorage.InitWrite` | src/access/open_pg_tde_xlog_smgr.c:235-297 | start-up in the postmaster appends an encrypted entry, an unencrypted one or none, and in a child none; range, publication and cache are those of the run model |
| `WalSmgr.WalStorage.EnsureKeyLocation` | src/access/open_pg_tde_xlog_smgr.c:392-429 | the first eligible write fixes the start, none in crash recovery or once one is published; the result says whether the newest key is to be used |
| `WalSmgr.WalStorage.RefreshCache` | src/access/open_pg_tde_xlog_smgr.c:486-519 | the cache is filled when empty and extended when a newer start is published |
| `WalSmgr.WalStorage.EncryptPages` | src/access/open_pg_tde_xlog_smgr.c:358-387 | the bytes are encrypted under the key the process's write context holds, or under the current range's key, which the context then keeps |
| `WalSmgr.WalStorage.EncryptPagesOldKeys` | src/access/open_pg_tde_xlog_smgr.c:333-353 | the bytes are encrypted under the keys of their positions |
| `WalSmgr.WalStorage.PreparePages` | src/access/open_pg_tde_xlog_smgr.c:431-453 | every byte is prepared under the key that a step of the run model writes it with, the caller's buffer staying as it is |
| `WalSmgr.WalStorage.SegWrite` | src/access/open_pg_tde_xlog_smgr.c:431-453 | a segment write is a write step of the run model, given that the write context holds the current key, and it stays so |
| `WalSmgr.WalStorage.SegRead` | src/access/open_pg_tde_xlog_smgr.c:458-477 | a segment read returns for each byte given what the run model's reader sees; after a short read the rest of the buffer is masked too; a failed read changes nothing |
| `WalContexts.StepKeepsContexts` | src/access/open_pg_tde_xlog_smgr.c:374-384 | every write context holds the newest key after a step if and only if the step is not a soft restart that changes the key under a postmaster that has written |
| `WalContexts.ContextsHoldTheNewestKey` | src/encryption/enc_aes.c:121-134 | over every run in which the postmaster leaves writing to its children, every write context holds the newest key, kept or inherited |
| `WalContexts.PostmasterContextGoesStale` | src/access/open_pg_tde_xlog_smgr.c:235-262 | a postmaster that had written would keep the old key through a soft restart |
| `WalPublish.RunKeepsInv` | src/access/open_pg_tde_xlog_smgr.c:96-108 | the invariant of the publication protocol holds after every interleaving |
| `WalPublish.ReadersHaveTheKey` | src/access/open_pg_tde_xlog_smgr.c:431-519 | in every interleaving a reader that saw bytes written under the new key has that key when it decrypts, and old keys for earlier positions |
| `WalPublish.NoStaleTimeline` | src/access/open_pg_tde_xlog_smgr.c:96-108 | in every interleaving a published LSN is only paired with its own timeline |
| `WalPublishedRuns.PublicationIsReachable` | src/access/open_pg_tde_xlog_smgr.c:392-429 | whenever a write in a run of servers fixes a start, the protocol starts in its initial state, with the processes of that run as readers |
| `WalServerKey.ResealKeepsRanges` | src/access/open_pg_tde_xlog_keys.c:724-795 | resealing keeps every entry's range, start and key, and every resealed entry opens |
| `WalServerKey.ResealCarriesOver` | src/access/open_pg_tde_xlog_keys.c:724-795 | entry by entry and field by field: range type, start, base vector and secret stay, and the cipher, which version 1 does not name |
| `WalServerKey.SealCovers` | src/access/open_pg_tde_xlog_keys.c:676-720 | which fields of an entry cannot be changed under its seal, by version; the start always can |
| `WalServerKey.SetLastSealedDecodes` | src/access/open_pg_tde_xlog_keys.c:109-173 | fixing a start on the sealed file decodes to fixing it on the entries |
| `WalServerKey.FixingKeepsOpen` | src/access/open_pg_tde_xlog_keys.c:706-717 | every entry still opens after fixing a start if and only if none was invalidated |
| `WalServerKey.WalKeyDirectory.CopyResealed` | src/access/open_pg_tde_xlog_keys.c:724-795 | the copy holds every entry under the new key, or fails at the first that does not open |
| `WalServerKey.CrashKeepsRanges` | src/access/open_pg_tde_xlog_keys.c:724-795 | after a crash at any step of a rewrite the file in place is opened by its header key and holds the same ranges |
| `WalServerKey.WalMigrationIsRestartable` | src/access/open_pg_tde_xlog_keys.c:1103-1172 | migrating again after a crash at any step ends in the same directory |
| `WalServerKey.WalKeyDirectory.RotateServerKey` | src/access/open_pg_tde_xlog_keys.c:724-795 | rotation succeeds if and only if every entry opens, and then carries every field of every entry over under the new key |
| `WalServerKey.WalKeyDirectory.Migrate` | src/access/open_pg_tde_xlog_keys.c:1103-1172 | migration carries every field of every entry over under the same server key in the current format; without a file there is nothing to do |
| `KeyMap.ContentCharacterised` | src/access/open_pg_tde_tdemap.c:508-568 | the map a file stands for has exactly the relations of its used slots, with their keys |
| `KeyMap.MadeSlotsOpen` | src/access/open_pg_tde_tdemap.c:453-478 | a written slot opens under its principal key and no other, and gives back key, vector and cipher |
| `KeyMap.OpenedKey` | src/access/open_pg_tde_tdemap.c:581-603 | what opening a slot gives, field by field, for every version |
| `KeyMap.SealCovers` | src/access/open_pg_tde_tdemap.c:453-478 | which fields of a slot cannot be changed under its seal, by version |
| `KeyMap.SaveRefines` | src/access/open_pg_tde_tdemap.c:105-181 | saving is a map update; without replacing, an existing key stays |
| `KeyMap.SaveReusesSlots` | src/access/open_pg_tde_tdemap.c:133-165 | the file grows if and only if the relation has no slot and none is free |
| `KeyMap.FreeRefines` | src/access/open_pg_tde_tdemap.c:268-304 | freeing is removal from the map |
| `KeyMap.FileRefinesMap` | src/access/open_pg_tde_tdemap.c:105-304 | over every sequence of saves and frees the slots stand for the map the same operations build, one live slot for each relation, all openable |
| `KeyMap.FindSlot` | src/access/open_pg_tde_tdemap.c:133-165 | the scan finds the relation's slot, else the first free one, else the end |
| `KeyMap.FindEntry` | src/access/open_pg_tde_tdemap.c:508-531 | the entry found is the relation's live slot, and none is found exactly when the map has none |
| `KeyMap.CountKeys` | src/access/open_pg_tde_tdemap.c:541-568 | the count is the number of the map's relations in the tablespace |
| `KeyMap.KeyMapFile.SaveKey` | src/access/open_pg_tde_tdemap.c:105-181 | the map after a save |
| `KeyMap.KeyMapFile.FreeEntry` | src/access/open_pg_tde_tdemap.c:268-304 | the map after a free |
| `KeyMap.KeyMapFile.GetKey` | src/access/open_pg_tde_tdemap.c:850-893 | the key last stored for the relation, or none |
| `KeyFileRewrite.RewriteKeepsKeys` | src/access/open_pg_tde_tdemap.c:309-391 | the rewritten file is opened by its own header key, stands for the same map, and carries every used slot over field by field, from any format |
| `KeyFileRewrite.ResealCarriesOver` | src/access/open_pg_tde_tdemap.c:964-1160 | the new slots are exactly the used old ones in order, each with its relation, secret, base vector and cipher, which is AES-128 for version 3 |
| `KeyFileRewrite.CrashKeepsKeys` | src/access/open_pg_tde_tdemap.c:309-391 | after a crash at any step the file in place is opened by its header key and stands for the same map |
| `KeyFileRewrite.MigrationIsRestartable` | src/access/open_pg_tde_tdemap.c:964-1260 | migrating again after a crash at any step ends in the same directory, temporary file included |
| `KeyFileRewrite.KeyDirectory.CopyResealed` | src/access/open_pg_tde_tdemap.c:309-391 | the temporary file holds every used slot resealed, in order |
| `KeyFileRewrite.KeyDirectory.RotateKey` | src/access/open_pg_tde_tdemap.c:309-391 | succeeds exactly when the old key opens every slot; the rewritten file, every used slot carried over under the new key, replaces the old one |
| `KeyFileRewrite.KeyDirectory.Migrate` | src/access/open_pg_tde_tdemap.c:964-1260 | an old file is rewritten in the current format with every used slot carried over, a current one is left alone |
| `PrincipalKeys.ResealedKeepsPayloads` | src/catalog/tde_principal_key.c:226-319 | rotation changes no protected key |
| `PrincipalKeys.MovedAgain` | src/catalog/tde_principal_key.c:1432-1469 | moving one more database extends the set of files moved |
| `PrincipalKeys.MovedMeans` | src/catalog/tde_principal_key.c:1404-1469 | file by file: a user of the old key is sealed under the new one with all it protects, every other file stays |
| `PrincipalKeys.WithoutUsersBySteps` | src/catalog/tde_principal_key.c:802-899 | deleting server file, user files and default file step by step removes exactly the files naming the default |
| `PrincipalKeys.WithoutUsersMeans` | src/catalog/tde_principal_key.c:802-899 | file by file: what is left when the default key is deleted |
| `PrincipalKeys.RunKeepsKeys` | src/catalog/tde_principal_key.c:226-1469 | over every sequence of create, set, rotate, fallback, add, free, delete and restart steps a cached key is the one its file header names, that key opens every entry of the file, and whatever was protected stays so unless its own entry was freed |
| `PrincipalKeys.AllMovedFiles` | src/catalog/tde_principal_key.c:1404-1469 | moving the default everywhere moves exactly the files that name the old one |
| `PrincipalKeys.Cluster.CreateKey` | src/catalog/tde_principal_key.c:507-557 | a key name is never given to a second key |
| `PrincipalKeys.Cluster.GetNoDefault` | src/catalog/tde_principal_key.c:1094-1151 | the key is the one the file's header names, whether cached or fetched |
| `PrincipalKeys.Cluster.SaveKey` | src/access/open_pg_tde_tdemap.c:239-260 | the first save makes an empty file; there was none, so no entry is discarded; the whole state is the one of the run model, as for every method of this class |
| `PrincipalKeys.Cluster.Rotate` | src/catalog/tde_principal_key.c:294-304 | every entry of the file is resealed under the new key, which is cached |
| `PrincipalKeys.Cluster.SetOne` | src/catalog/tde_principal_key.c:226-319 | succeeds exactly when the keyring has the key; then the file is rotated or created |
| `PrincipalKeys.Cluster.GetKey` | src/catalog/tde_principal_key.c:1153-1197 | falls back to the default, which then becomes the database's own key |
| `PrincipalKeys.Cluster.AddEntry` | src/access/open_pg_tde_tdemap.c:105-131 | a new entry is sealed under the key its file's header names; it fails exactly when there is neither an own nor a default key |
| `PrincipalKeys.Cluster.FreeEntry` | src/access/open_pg_tde_tdemap.c:268-304 | exactly the relation's entry loses its protection, without any key |
| `PrincipalKeys.Cluster.MoveEverywhere` | src/catalog/tde_principal_key.c:1404-1469 | exactly the files that name the old default move to the new one |
| `PrincipalKeys.Cluster.SetDefault` | src/catalog/tde_principal_key.c:636-713 | sets the default and moves exactly its users |
| `PrincipalKeys.Cluster.DeleteKey` | src/catalog/tde_principal_key.c:722-775 | when a key can be deleted, and what becomes of its file |
| `PrincipalKeys.Cluster.DeleteDefault` | src/catalog/tde_principal_key.c:802-899 | refused before any change exactly when there is no default or a user of it protects something; otherwise no catalogued file names it |
| `DecodeBuffer.SpaceIsFree` | fetools/pg18/xlogreader.c:454-542 | space given in the buffer overlaps no queued record and stays inside the buffer |
| `DecodeBuffer.SpaceIsGivenIff` | fetools/pg18/xlogreader.c:454-542 | space in the buffer is given if and only if the record fits behind the tail or strictly before the head; with oversized records allowed none waits |
| `DecodeBuffer.DrainedBufferTakes` | fetools/pg18/xlogreader.c:454-542 | once no record is left in the buffer, any record that fits it gets space |
| `DecodeBuffer.QueueIsFifo` | fetools/pg18/xlogreader.c:265-387 | decoding queues at the end, releasing takes the oldest if it was handed out, a reset empties |
| `DecodeBuffer.CommitKeepsInv` | fetools/pg18/xlogreader.c:919-940 | a record put into the space and queued keeps the buffer's layout |
| `DecodeBuffer.ReleaseKeepsInv` | fetools/pg18/xlogreader.c:265-327 | releasing the oldest record keeps the layout; the head moves to the oldest in-buffer record left |
| `DecodeBuffer.InvPlacesWell` | fetools/pg18/xlogreader.c:454-542 | the layout means pairwise disjoint records, the head at the oldest, head equal to tail only without records |
| `DecodeBuffer.RecordsNeverOverlap` | fetools/pg18/xlogreader.c:265-542 | over every sequence of allocate, decode, release, hand-out and reset the queued records are disjoint and well placed, whatever oversized records are among them |
| `DecodeBuffer.RecordsStayAligned` | fetools/pg18/xlogreader.c:919-940 | if decoded sizes are multiples of eight, over every run every record in the buffer starts at one |
| `DecodeBuffer.Decoder.Alloc` | fetools/pg18/xlogreader.c:454-542 | the branches choose the space the specification chooses |
| `DecodeBuffer.Decoder.Enqueue` | fetools/pg18/xlogreader.c:919-940 | the record is queued and the tail moves behind it if it is in the buffer |
| `DecodeBuffer.Decoder.ReleasePrevious` | fetools/pg18/xlogreader.c:265-327 | the scan for the next in-buffer record moves head and tail as specified |
| `DecodeBuffer.Decoder.Next` | fetools/pg18/xlogreader.c:341-387 | the previous record is released and the next becomes current |
| `DecodeBuffer.Decoder.ResetDecoder` | fetools/pg18/xlogreader.c:1632-1655 | queue and buffer are empty |
| `Reassembly.GatherSound` | fetools/pg18/xlogreader.c:737-858 | whatever is gathered is laid out over the pages with correct continuation headers |
| `Reassembly.GatherComplete` | fetools/pg18/xlogreader.c:737-858 | whatever is laid out over any number of pages is gathered byte for byte |
| `Reassembly.SwitchRoundsUp` | fetools/pg18/xlogreader.c:889-898 | after a log switch reading goes on at the next segment boundary, after any other record at its end |
| `Reassembly.ReadIsSound` | fetools/pg18/xlogreader.c:544-898 | a record returned is laid out where the reader was sent, behind the page header if to a page start, or at a page that overwrote a continuation, never where a page continues a record; it passed the header check and the record check for its address even if its header was split over a page; reading goes on at its aligned end, or at the end of the segment after a log switch |
| `Reassembly.CutOffRestarts` | fetools/pg18/xlogreader.c:737-767 | reading starts anew at a page if and only if the record is continued correctly up to that page, which overwrote it, and no check of its header failed before |
| `Reassembly.CutOffIsSkipped` | fetools/pg18/xlogreader.c:600-767 | in place of such a record the one laid out at the start of that page is returned |
| `Reassembly.ReadIsComplete` | fetools/pg18/xlogreader.c:544-898 | every correctly laid out record is returned byte for byte |
| `RecordReader.RecordBufSize` | fetools/pg18/xlogreader.c:206-218 | the buffer size is a whole number of pages, larger than the length by at most one page or five pages in all, and does not wrap |
| `RecordReader.Reader.AllocateRecordBuf` | fetools/pg18/xlogreader.c:206-218 | a buffer of that size |
| `RecordReader.Reader.AppendPage` | fetools/pg18/xlogreader.c:737-858 | a continuation page is checked and copied in bounds, or the attempt ends as the specification says |
| `RecordReader.Reader.GatherPages` | fetools/pg18/xlogreader.c:737-858 | the loop ends with the whole record or with the specification's error; it grows the buffer at most once, on the first continuation page |
| `RecordReader.Reader.Assemble` | fetools/pg18/xlogreader.c:713-869 | assembling over pages equals its specification, the buffer growing at most once |
| `RecordReader.Reader.ReadRecord` | fetools/pg18/xlogreader.c:544-898 | reading a record, restarts included, equals its specification, and what is returned is laid out, checked and followed as stated |
| `RecordDecoder.AcceptedFits` | fetools/pg18/xlogreader.c:1737-1934 | accepted headers have increasing block ids within bounds, and the record holds what they announce if and only if the main data announced is not longer than what is left |
| `RecordFormat.WrappedLengthsAreAccepted` | fetools/pg18/xlogreader.c:1721-1934 | a record that announces more than it holds and is accepted, because the announced lengths wrap |
| `RecordDecoder.ImageAcceptedIff` | fetools/pg18/xlogreader.c:1825-1904 | which image headers are accepted, on their bytes, and that an uncompressed image and its hole make up a page if and only if the image is not longer than one |
| `RecordDecoder.ParseHeaders` | fetools/pg18/xlogreader.c:1737-1934 | the loop equals the recursive parser |
| `RecordDecoder.CopyBlocks` | fetools/pg18/xlogreader.c:1936-1971 | images and data of all blocks are copied in order, data aligned |
| `RecordDecoder.CopyFragments` | fetools/pg18/xlogreader.c:1936-1990 | images unaligned, data and main data aligned, in order are the payload, lie apart behind every block's entry, and never take more than the required space |
| `RecordDecoder.SpaceSuffices` | fetools/pg18/xlogreader.c:1666-1685 | the required space bounds every decoded size |
| `RecordDecoder.Decode` | fetools/pg18/xlogreader.c:1699-2000 | a record is refused by the parser or decoded as stated |
| `DecodedRecords.DecodedFitsItsSpace` | fetools/pg18/xlogreader.c:1984-1990 | a decoded record's size is legal for the space asked for it in the buffer, and a multiple of eight |
| `RecordFormat.AcceptedIff` | fetools/pg18/xlogreader.c:1723-1934 | a record is accepted with given fragments, its main data not longer than what is left, if and only if it is a head, the headers of such fragments and the bytes they announce |
| `RecordFormat.ParseBlockBack` | fetools/pg18/xlogreader.c:1775-1923 | a block header put together from its fields parses into those fields |
| `RecordFormat.RecordRoundTrip` | fetools/pg18/xlogreader.c:1737-1934 | a record put together from any fragments parses into exactly those fragments, with the payload behind them |
| `TarChunks.ReceivedBytes` | fetools/pg16/pg_basebackup/bbstreamer.h:34-52 | no byte is lost or moved between chunks and the members they make up |
| `TarChunks.PaddingFills` | fetools/pg16/pg_basebackup/bbstreamer_tar.c:310-311 | contents and padding fill whole blocks |
| `TarParser.FeedAppend` | fetools/pg16/pg_basebackup/bbstreamer_tar.c:110-253 | feeding two pieces is feeding their concatenation |
| `TarParser.AcceptedIff` | fetools/pg16/pg_basebackup/bbstreamer_tar.c:110-341 | a stream is accepted with given members and trailer if and only if it is their concatenation, each member well formed |
| `TarParser.Parser.BufferUntil` | fetools/pg16/pg_basebackup/bbstreamer.h:174-196 | takes just enough bytes to reach the target, or all of them |
| `TarParser.Parser.Header` | fetools/pg16/pg_basebackup/bbstreamer_tar.c:261-319 | a header block starts a member, ends the archive or ends the program |
| `TarParser.Parser.Contents` | fetools/pg16/pg_basebackup/bbstreamer_tar.c:167-211 | contents are passed on up to the member's size, as byte by byte |
| `TarParser.Parser.Trailer` | fetools/pg16/pg_basebackup/bbstreamer_tar.c:213-234 | padding is passed on once complete |
| `TarParser.Parser.Content` | fetools/pg16/pg_basebackup/bbstreamer_tar.c:110-253 | a chunk of any size has the effect of its bytes one by one |
| `TarParser.Parser.Finalize` | fetools/pg16/pg_basebackup/bbstreamer_tar.c:324-341 | fails inside a member or header; otherwise one archive trailer is sent and all bytes have been passed on |
| `TarParser.ParseStream` | fetools/pg16/pg_basebackup/bbstreamer_tar.c:110-341 | for every way of cutting a stream, the outcome and the members depend on the bytes only, the bytes passed on are the bytes received, and all chunks carry the details of their member |
| `TarInject.RecoveryIsConfigured` | fetools/pg16/pg_basebackup/bbstreamer_inject.c:51-63 | what the edited archive holds under every name; a member that is appended to changes its size and no other detail |
| `TarInject.NewFile` | fetools/pg16/pg_basebackup/bbstreamer_inject.c:218-249 | the contents and details of a file that is added |
| `TarInject.DetailsKeptIff` | fetools/pg16/pg_basebackup/bbstreamer_inject.c:144-155 | all contents put out carry their member's details if and only if nothing is appended: no parameters, empty settings, or no postgresql.auto.conf |
| `TarInject.DetailsBreak` | fetools/pg16/pg_basebackup/bbstreamer_inject.c:150-154 | one archive and one byte of settings for which details that were right come out wrong |
| `TarInject.InjectedIsEdited` | fetools/pg16/pg_basebackup/bbstreamer_inject.c:84-194 | chunks of an archive come out as chunks of the edited archive |
| `TarInject.TrailerIsEdited` | fetools/pg16/pg_basebackup/bbstreamer_inject.c:144-155 | the chunks sent for a member's trailer complete the edited member, with wrong details exactly when settings are appended |
| `TarInject.Injector.InjectFile` | fetools/pg16/pg_basebackup/bbstreamer_inject.c:218-249 | a whole member is added |
| `TarInject.Injector.Content` | fetools/pg16/pg_basebackup/bbstreamer_inject.c:84-194 | for every chunk exactly the specified chunks are sent, and the next streamer has been told of exactly the edited members |
| `TarInject.Inject` | fetools/pg16/pg_basebackup/bbstreamer_inject.c:84-194 | a whole stream: the chunks specified, the edited archive, and the exact condition for right details |
| `TarArchive.RewrittenFollows` | fetools/pg16/pg_basebackup/bbstreamer_tar.c:396-443 | every chunk put out continues the archive of what came in |
| `TarArchive.Archiver.Content` | fetools/pg16/pg_basebackup/bbstreamer_tar.c:396-443 | headers and padding are made anew exactly for members without a header block |
| `TarArchive.ArchiveChunks` | fetools/pg16/pg_basebackup/bbstreamer_tar.c:396-443 | the same for a whole stream; the archive trailer is two zero blocks |
| `TarArchive.Pipeline` | fetools/pg16/pg_basebackup/bbstreamer_tar.c:110-443 | parser, injector and archiver together: contents match declared sizes, the archive is a multiple of 512 bytes, refusal depends on the bytes only |
| `TarArchive.PipelineRoundTrip` | fetools/pg16/pg_basebackup/bbstreamer_tar.c:375-443 | parsing the output gives the edited members with their contents and the two zero blocks |
| `BlockCrypt.CalcBlockIv` | src/encryption/enc_tde.c:186-212 | the vector computed in place is the masked position |
| `BlockCrypt.BlockIvsDiffer` | src/encryption/enc_tde.c:186-212 | two blocks share a vector if and only if they are one block, the init fork counting as the main fork |
| `BlockCrypt.PositionIsANumber` | src/encryption/enc_tde.c:181-208 | read as one big-endian number, what is added to the base is the block number and, 64 bits up, the fork number, 0 for the init fork |
| `BlockCrypt.KeyedContext.Prepare` | src/encryption/enc_aes.c:150-175 | key, direction and vector are loaded whatever the context held; longer keys than the buffer fail |
| `BlockCrypt.KeyedContext.Run` | src/encryption/enc_aes.c:183-214 | the page comes out as under a freshly keyed context |
| `BlockCrypt.CiphersSelect` | src/encryption/enc_aes.c:183-246 | which algorithm each of the four ciphers selects at its key length |
| `BlockCrypt.Contexts.CryptPage` | src/encryption/enc_aes.c:183-270 | the same whichever of the four shared contexts the key selects |
| `BlockCrypt.PageRoundTrip` | src/encryption/enc_tde.c:214-254 | a page reads back if and only if its ciphertext does not start with 32 zero bytes or equals the page |
| `BlockCrypt.PageIsLost` | src/encryption/enc_tde.c:214-254 | under any cipher each page that starts with 32 zero bytes and is not its own decryption is the ciphertext of a page that does not read back |
| `BlockCrypt.InitForkReadsAsMain` | src/encryption/enc_tde.c:191-203 | init fork and main fork encrypt and decrypt alike |
| `BlockStorage.StepHolds` | src/smgr/open_pg_tde_smgr.c:228-651 | every operation of the encrypted storage is matched by the storage without encryption: what is on disk stands for the plain page, whatever the cipher |
| `BlockStorage.RunHolds` | src/smgr/open_pg_tde_smgr.c:228-651 | the same for every run, over any relations, handles and forks |
| `BlockStorage.ReadsReturnThePage` | src/smgr/open_pg_tde_smgr.c:386-406 | after any run every handle reads the last page written, or zeros, if and only if the page on disk does not start with 32 zero bytes or is that page |
| `BlockStorage.CreatedAndExtended` | src/smgr/open_pg_tde_smgr.c:428-483 | the first page of a new relation lies on disk encrypted under its key, or as it is if it has none |
| `BlockStorage.RelationStaysUnderItsKey` | src/smgr/open_pg_tde_smgr.c:228-483 | from creation with a key until the main fork is unlinked or lost, over every run every handle sees the relation encrypted under that key and every page any handle writes or extends lies on disk encrypted under it; without a key both are plain |
| `BlockStorage.CloseForgets` | src/smgr/open_pg_tde_smgr.c:634-651 | closing the main fork, and nothing else, makes the handle forget its status |
| `BlockStorage.StorageManager.ResolveStatus` | src/smgr/open_pg_tde_smgr.c:228-249 | the status is looked up only while unknown |
| `BlockStorage.StorageManager.EncryptBlocks` | src/smgr/open_pg_tde_smgr.c:288-295 | every page of a run is encrypted for its block |
| `BlockStorage.StorageManager.WriteBlocks` | src/smgr/open_pg_tde_smgr.c:271-303 | writing blocks is a write step |
| `BlockStorage.StorageManager.ExtendBlock` | src/smgr/open_pg_tde_smgr.c:360-382 | extending is an extend step |
| `BlockStorage.StorageManager.DecryptBlock` | src/encryption/enc_tde.c:214-244 | a page that starts with 32 zero bytes is left alone, any other is decrypted |
| `BlockStorage.StorageManager.ReadBlocks` | src/smgr/open_pg_tde_smgr.c:386-406 | reading returns what the resolved status shows |
| `BlockStorage.StorageManager.CreateFork` | src/smgr/open_pg_tde_smgr.c:428-483 | the main fork brings its new key and status, or removes a leftover key; other forks change neither |
| `BlockStorage.StorageManager.CloseFork` | src/smgr/open_pg_tde_smgr.c:634-651 | closing the main fork forgets the status |
| `BlockStorage.StorageManager.UnlinkFork` | src/smgr/open_pg_tde_smgr.c:338-358 | a fork goes, and the key with the main fork |
| `Providers.RunOk` | src/catalog/tde_keyring.c:432-551 | over every run a slot's number fixes its id, live names differ, deleted slots stay deleted |
| `Providers.IdsAreNew` | src/catalog/tde_keyring.c:476-484 | an id given out was never in the file before, and fits 32 bits |
| `Providers.OperationsAreMapUpdates` | src/catalog/tde_keyring.c:432-551 | adding, changing and deleting are updates of the map from live names to providers, and succeed exactly when the map, the kind and the number of slots say so |
| `Providers.ReplayTwice` | src/catalog/tde_keyring.c:164-170 | replaying any log twice is replaying it once |
| `Providers.RunIsReplay` | src/catalog/tde_keyring.c:631-683 | the files are the log replayed |
| `Providers.RecoveryEndsInTheSameFiles` | src/catalog/tde_keyring.c:164-170 | replaying any suffix of the log over the final files, or over the files of that moment, ends in the final files |
| `Providers.DeletionChecksWhatItDeletes` | src/catalog/tde_keyring.c:308-343 | the provider checked is the one deleted if and only if no earlier live name differs only in case |
| `Providers.UsedIsDeletedIff` | src/catalog/tde_keyring.c:308-343 | a provider in use is deleted if and only if it has the name given and the first live provider of that name up to case is another one, not in use |
| `Providers.AlikeIff` | src/catalog/tde_keyring.c:804 | two names are alike to the lookup if and only if they agree up to the case of plain letters |
| `Providers.NamesDifferingInCasePart` | src/catalog/tde_keyring.c:308-343 | from any file, two free names that differ in case only can both be added; then the lookups find different records, and the second provider is deleted though in use |
| `Providers.ProviderStore.Scan` | src/catalog/tde_keyring.c:453-474 | the scan finds a taken name, or else the largest id |
| `Providers.ProviderStore.FindByName` | src/catalog/tde_keyring.c:686-719 | the first live record with exactly the name |
| `Providers.ProviderStore.WriteInfo` | src/catalog/tde_keyring.c:631-683 | one record is written at its position, and logged unless it comes from the log |
| `Providers.ProviderStore.SaveNew` | src/catalog/tde_keyring.c:432-493 | adding, with each of its failures |
| `Providers.ProviderStore.Modify` | src/catalog/tde_keyring.c:495-525 | changing, with each of its failures |
| `Providers.ProviderStore.DeleteInfo` | src/catalog/tde_keyring.c:527-551 | deleting keeps the id |
| `Providers.ProviderStore.DeleteProvider` | src/catalog/tde_keyring.c:308-343 | the lookup without regard to case, the in-use test and the deletion |
| `EncryptionMix.ReachesIff` | src/open_pg_tde_event_capture.c:216-253 | storage of a kind is reachable exactly at the relation itself or through a typed table of a composite type, an inheritor of anything else |
| `EncryptionMix.AlterTableMix` | src/open_pg_tde_event_capture.c:216-253 | mixed exactly when both kinds are reachable, unknown exactly when none is, else the one kind, for every acyclic hierarchy, child order and despite the early return |

## Left out

- StreamCipher.StreamCrypt: requires that offset plus length plus 15 stays below 2^32, which holds inside a WAL segment; beyond it the program's 32-bit sum wraps.
- RecordReader.Reader.ReadRecord: requires that the record asked for, and those behind overwritten continuations where the reader restarts, announce lengths below 2^32 minus one page, because the buffer size computation wraps above; non-blocking page reads are not modelled.
- RecordDecoder.Decode: requires that the main data announced is not longer than what is left of an accepted record, because otherwise the program copies from beyond the record; the sizes of the decoded record's fixed part and block entries are symbolic.
- WalServerKey.WalKeyDirectory.Migrate: a file that is there has a header; an empty WAL key file is not modelled.
- WalRuns.ReadsReturnLastWritten: the key, once fetched, always opens; a server whose principal key is missing stops and is not modelled.
- BlockStorage.ReadsReturnThePage: assumes that decryption undoes encryption, that nobody else holds a relation while its main fork is created or unlinked, and that forks left behind by the main fork are not used.
- TarArchive.PipelineRoundTrip: assumes that PostgreSQL's header writer and header parser agree on plain files named like the recovery files, with modes below 4096 since a header holds permission bits only, and that postgresql.auto.conf is such a file.
- PrincipalKeys.Cluster.GetNoDefault: one step; the program drops and retakes the lock on a cache miss, so a concurrent rotation in between is not modelled.
- TDEXLogSmgrInitWriteOldKeys: used by one command-line tool only; with an empty key file it links a stub at each call.
- OpenSSL, random numbers and GCM internals: parameters and ideal functions; failing library calls that leave a context half keyed are not modelled.
- KMIP, OpenBao, file and curl key rings: a key ring is a map from names to keys.
- Shared memory, AIO registration, hooks, settings, locks: wiring without a property of its own.
- Redo on standbys: deletion of principal keys there does not clear the cache; key creation redo and extension install redo are outside the storage and replay claims.
- Which new relations are encrypted and with which cipher: one-branch choices over settings; here the new key, or none, is given.
- Creating forks during redo or binary upgrade: no key is touched there, so nothing beyond md.c happens.
- Leftover temporary relation keys: they live in a backend's memory and go with it.
- Page header texts, CRC, decompression and restoring of block images: predicates or not part of the model.
- Tar header fields: read and written by PostgreSQL code that is not part of the model; the link target that stays from an earlier link in the parser's member is not modelled.
- Locale-dependent case folding above ASCII in provider names.
- Event stack of DDL commands, temporary-file encryption, statistics, compressing streamers, command-line tools: easy members or I/O.
- fetools/pg16/xlogreader.c and fetools/pg17/xlogreader.c: near copies of the version modelled.
