# A verified model of the object store, its codec and packs, and the forge's protocols

The system is a version-control server and client built on a content-addressed object store. This
project models its core in Dafny and proves what the code is for, over every input, run or
interleaving:

- **Codec** (`octets`, `utf8`, `sorting`, `objects`, `codec`, `codec_laws`, `codec_format`, `codec_orders`,
  `codec_exact`, `codec_io`): the canonical encoding of the eight object kinds, as specification functions
  and as the writer and the cursor the program uses; its layout byte by byte, the bytes its unstable sort
  may choose between, and exactly which bytes are an encoding.
- **Packs and intake** (`pack`, `pack_account`, `pack_io`, `pack_streams`, `intake`): pack and index files,
  their two writers and four readers, what the readers make of arbitrary bytes and streams, and the
  reading of a claimed number of bytes from an untrusted source.
- **Store** (`store_spec`, `store_inv`, `store_evict`, `store_laws`, `store_packs`, `store_runs`,
  `store_recency`, `store_map`, `store_cases`, `store_verified`, `store_world`, `store`): the byte-budgeted
  cache over three backends. Each operation is a function on a state value; the class `Store` is proved to
  compute exactly those functions, the runs are proved to be runs of a plain map, and eviction to go by
  last use.
- **Crashes** (`crash`, `crash_lives`): the pack directory under a file system that keeps only what was
  synced, over any number of crashes and restarts.
- **Forge protocols** (`admission`, `stream`, `publish`): slot admission, the transport stream and the
  contents write, each a step relation with arbitrary interleaving.
- **Recipients** (`keyed`, `registers`, `policy_merge`, `merge_order`, `envelope`): standing registers,
  the merge of two policies, and the envelope of a secret.
- **Kernels** (`civil`, `civil_text`, `base64`, `ancestry`): calendar dates, base64, the ancestor walk.

`dafny verify dfyconfig.toml` checks all of it.

## How the model is set up

- Hash, compressor and cipher are function values. The hash is assumed to tell apart only the
  encodings and pack bodies a run meets (`StoreInv.World`); decompression undoes compression;
  decryption undoes encryption and both sides of a key agreement get the same secret.
- "The same object" means the same canonical encoding: a reload returns the sorted form.
- Registers are sorted with an unstable sort (crates/core/src/object.rs:415). `Codec.Encode` is the
  encoding with equal keys in the order they are listed; `CodecOrders.MayEncode` holds of every byte string
  the program may write.
- Panics are an outcome (`Panic`), not a precondition. The order in which a directory is listed is a
  parameter of every operation that lists one.
- Protocol clocks are absent: a deadline may strike at any step where the code waits.

## What turned out not to hold

Each of these has an exact condition, and an input or a family of runs that shows it fail.

- An object does not always have one encoding: where a rule lists two different registers for a key, the
  unstable sort may write them in either order. It has one exactly where no rule does:
  `CodecOrders.OneEncodingIff`. The order the registers are held in never changes which bytes may be
  written (`CodecOrders.RegistersRearranged`), so it never shows where the encoding is one
  (`CodecLaws.RegisterOrderForgotten`).
- The order of anchors and closure never shows in the bytes, but two rules for the same prefix are kept in
  input order (the prefix sort is stable), so swapping them changes the encoding:
  `CodecLaws.PrefixOrderMatters`; exactly when it matters: `CodecLaws.PrefixOrderExact`.
- Decoding and encoding again does not always give the bytes back: bytes after the object are ignored
  (`CodecExact.TrailingBytesLost`), and lists out of order and repeated map keys are accepted. Exactly
  which bytes come back: `CodecExact.ReencodesIff`, and for certain: `CodecExact.SurelyReencodesIff`.
- With a spill directory, making room aborts when a sealed object in the way is reached, because
  sealed objects count against the budget and only blobs can be spilled: `StoreCases.SealedObjectAborts`;
  exactly when: `StoreEvict.SpillPanicsIff`.
- A pack of a repeated id cannot be indexed; the call fails and every later reload fails:
  `StorePacks.WritePackTwiceFails`; exactly when: `Pack.IndexInverts`.
- Deleting a pack keeps resident copies. Put, pack, delete, read and delete the pack, and the object is
  served from memory and is on no disk: `StoreCases.ResidentOutlivesPack`. The store stays durable
  exactly when no resident object had its last copy there (`StoreRuns.StepRefines`), and stays the plain
  map exactly when no object put and not deleted had either (`StoreMap.StepAgreesIff`).
- The documentation of `put` (crates/core/src/store.rs:163-164) promises a durable write before it
  returns. An object found in memory is not written, so in that state a put reports success and leaves
  it on no disk: `StoreCases.ResidentOutlivesPack`; exactly when: `StoreRuns.PutDurableIff`.
- A put of an object that is held already reports success and is not a use: of two objects put and the
  first put again, the first is still the next to be evicted: `StoreRecency.SecondPutIsNoUse`; exactly
  which puts are uses: `StoreRecency.PutUses`.
- A contents write says in a comment (crates/forge/src/content_write.rs:275) that a refused request
  stores nothing. For the precondition check the code keeps this in the first round only: a request that
  loses a round and is refused in a later one has stored its blob. `Publish.RefusedStoresExactly` gives the
  condition and `Publish.RefusedCanHaveStored` a run. A request denied by the second look at branch
  protection, or told that its branch now exists, has stored its blob even in the first round:
  `Publish.DeniedCanHaveStored`; for every answer, exactly when: `Publish.AnswersStore`.
- Setting a standing reaches the first register of a key. A rule that lists a key twice keeps it
  granted through a revoke: `Registers.TwiceListedOutlivesRevoke`, exactly when:
  `Registers.RevokeTakesIff`.
- Merging two policies gives the same standings in either order, always. The bytes of the merge can
  still tell the order. They do not exactly when, for every prefix that both sides name, the first rules
  of the two sides repeat the same registers of each key in the same order: `MergeOrder.MergeOrderExact`;
  a family in which they tell it: `MergeOrder.MergeOrderShows`. Where the kept registers of a key differ,
  the program's sort promises no order among them; under the condition it may then write exactly the same
  bytes for both merges (`MergeOrder.SameRepeatsSameBytes`), and where they do not differ the equivalence
  holds of the bytes it writes (`MergeOrder.MergeBytesExact`).
- A temporary file's name is made of the process id and a counter that starts again with the process
  (crates/core/src/fsutil.rs:38-39), so a later life can use it again. If a crash can keep both names of a
  rename, that truncates a pack: `CrashLives.ReuseEmptiesPack`. It is safe exactly when the file is no
  pack's and no index's (`CrashLives.ReuseSafeIff`), and always where renames are atomic
  (`CrashLives.AtomicCrashSafe`).
- The forge's timestamp is an RFC 3339 date-time exactly from day -719528 to day 2932896 of the Unix
  era: `CivilText.TextRoundTrip`.

## Model

| member | source | states |
|---|---|---|
| `Octets.BigEndianRoundTrip` | crates/core/src/object.rs:728-733 | fixed-width integers are read back as written |
| `Octets.BigEndianInverse` | crates/core/src/object.rs:769-795 | bytes are what their number is written as |
| `Octets.BigEndianDigits` | crates/core/src/object.rs:728-733 | byte i of k is the digit of weight 256^(k-1-i) |
| `Octets.LittleEndianDigits` | crates/core/src/pack.rs:43-71 | byte i is the digit of weight 256^i |
| `Octets.LexLeIff` | crates/core/src/object.rs:402-415 | the order of prefixes, keys and ids is that of dictionaries on unsigned bytes |
| `Utf8.ValidIff` | crates/core/src/object.rs:806-809 | the text check accepts exactly the concatenations of UTF-8 encodings of scalar values |
| `Sorting.SortEqualIff` | crates/core/src/object.rs:405-424 | two lists sort to the same list exactly when each key has the same elements in the same order |
| `Sorting.RearrangementSortsAlike` | crates/core/src/object.rs:479-492 | where keys determine elements, any rearrangement sorts alike, so an unstable sort has one result |
| `Objects.CanonKeepsTyped` | crates/core/src/object.rs:369-424 | the canonical form is again a value of the program's types, of the same size |
| `Objects.CanonIdempotent` | crates/core/src/object.rs:369-424 | the canonical form is its own canonical form |
| `Codec.PrintRoundTrip` | crates/core/src/object.rs:504-713 | parsing undoes printing for all eight kinds |
| `Codec.EncodeDecode` | crates/core/src/object.rs:369-713 | decode(encode(o)) succeeds, is the canonical form, and encodes to the same bytes |
| `Codec.EncodeEqualIff` | crates/core/src/object.rs:369-713 | encodings are equal exactly when canonical forms are equal |
| `CodecFormat.PrintIsWritten` | crates/core/src/object.rs:369-502 | every kind is written as its tag byte and its fields in order, each with its literal width and marks |
| `CodecFormat.EncodeIsWritten` | crates/core/src/object.rs:369-502 | the canonical encoding is the canonical form so written |
| `CodecLaws.PrefixOrderExact` | crates/core/src/object.rs:405-424 | exactly which rearrangements of the prefix rules leave the bytes unchanged |
| `CodecLaws.PrefixOrderForgotten` | crates/core/src/object.rs:405-424 | with one rule per prefix, their order never shows |
| `CodecLaws.PrefixOrderMatters` | crates/core/src/object.rs:405-424 | two different rules of one prefix, swapped, give different bytes |
| `CodecLaws.RegisterOrderForgotten` | crates/core/src/object.rs:405-424 | where no rule lists two different registers for a key, the order of the registers of a prefix never shows |
| `CodecLaws.ManifestOrderExact` | crates/core/src/object.rs:479-492 | the bytes of a manifest forget exactly the order of anchors and closure |
| `CodecLaws.KindsApart` | crates/core/src/object.rs:369-502 | different kinds never share an encoding |
| `CodecLaws.DecodeYieldsTyped` | crates/core/src/object.rs:504-713 | whatever bytes are decoded, the result is a value of the program's types |
| `CodecLaws.CollectIff` | crates/core/src/object.rs:539-605 | a decoded map is in ascending order and holds, for each key, exactly the last entry the bytes give it |
| `CodecLaws.MapsTakeLast` | crates/core/src/object.rs:539-605 | so it is with the secrets and the wraps of a snapshot |
| `CodecLaws.DecodeStable` | crates/core/src/object.rs:504-713 | decoding any bytes and encoding again reaches the canonical form and stays there |
| `CodecOrders.OneEncodingIff` | crates/core/src/object.rs:405-424 | the program has one encoding of an object to choose exactly when no rule lists two different registers for a key |
| `CodecOrders.RegistersRearranged` | crates/core/src/object.rs:405-424 | for all rules, rearranging registers does not change which bytes the program may write |
| `CodecOrders.MayEncodeMeetIff` | crates/core/src/object.rs:369-502 | the program may write the same bytes for two objects exactly when they are equal up to order, and then it may write all the same bytes |
| `CodecExact.FieldsBack` | crates/core/src/object.rs:539-605 | a snapshot read from bytes, printed before the bytes left, is the bytes it was read from |
| `CodecExact.EncodedIff` | crates/core/src/object.rs:369-713 | bytes are the encoding of some object exactly when they hold one whole object and nothing after it, map keys strictly ascending and sorted lists in order |
| `CodecExact.ReencodesIff` | crates/core/src/object.rs:369-713 | and exactly those are given back by decoding and encoding |
| `CodecExact.WrittenIff` | crates/core/src/object.rs:369-502 | and exactly those may be written by the program, whatever its unstable sort does |
| `CodecExact.SurelyReencodesIff` | crates/core/src/object.rs:369-713 | the program is sure to give decoded bytes back exactly when they are of that form and no rule lists two different registers for a key |
| `CodecExact.TrailingBytesLost` | crates/core/src/object.rs:509-531 | a tree with any bytes after it decodes to the tree, and encodes to other bytes |
| `CodecIO.Writer.constructor` | crates/core/src/object.rs:718-721 | an empty buffer |
| `CodecIO.Writer.Raw` | crates/core/src/object.rs:734-739 | appends exactly the bytes |
| `CodecIO.Writer.U32` | crates/core/src/object.rs:728-730 | appends the big-endian form, whatever follows |
| `CodecIO.Writer.I64` | crates/core/src/object.rs:731-733 | appends the two's complement form |
| `CodecIO.Writer.Prefixed` | crates/core/src/object.rs:740-746 | appends the length and the bytes |
| `CodecIO.Writer.Prefixes` | crates/core/src/object.rs:405-424 | appends the rules in their order, the registers of each in a sorted order |
| `CodecIO.Writer.Snap` | crates/core/src/object.rs:390-434 | appends a snapshot in a layout the sorts allow |
| `CodecIO.Writer.Optional` | crates/core/src/object.rs:472-478 | appends an optional id with its mark |
| `CodecIO.Writer.Branch` | crates/core/src/object.rs:469-500 | appends the canonical form of a manifest |
| `CodecIO.WriteObject` | crates/core/src/object.rs:369-502 | the writer's bytes are the print of a layout of the object |
| `CodecIO.EncodeObject` | crates/core/src/object.rs:369-502 | for every object the writer's bytes are among those the sorts allow, and are the canonical encoding where no rule lists two different registers for a key |
| `CodecIO.Reader.constructor` | crates/core/src/object.rs:755-757 | a cursor at the start |
| `CodecIO.Reader.Take` | crates/core/src/object.rs:758-765 | takes the next bytes or fails, never past the end |
| `CodecIO.Reader.Count` | crates/core/src/object.rs:781-789 | a count is at most the bytes that remain |
| `CodecIO.Reader.Reserve` | crates/core/src/object.rs:774-789 | each request for room is recorded with the bytes left, and none is for more elements than those |
| `CodecIO.Reader.Prefixed` | crates/core/src/object.rs:802-805 | a length-prefixed field or a failure |
| `CodecIO.Reader.Str` | crates/core/src/object.rs:806-809 | a length-prefixed field that encodes a sequence of scalar values, or a failure |
| `CodecIO.Reader.Snap` | crates/core/src/object.rs:539-605 | the cursor reads what the snapshot grammar reads |
| `CodecIO.DecodeWith` | crates/core/src/object.rs:504-713 | the cursor computes the grammar's result, never passes the end, and reserves no more elements than bytes remain |
| `CodecIO.DecodeObject` | crates/core/src/object.rs:504-713 | the cursor's result is the grammar's, on every byte string |
| `Pack.ReadIndexed` | crates/core/src/pack.rs:214-302 | reading at an indexed offset returns that object, or fails exactly when it is over the cap |
| `Pack.ScanPackLaw` | crates/core/src/pack.rs:310-456 | scanning a pack delivers the records before the first over-cap one and then fails, or all in order |
| `Pack.IndexInverts` | crates/core/src/pack.rs:163-211 | the index parser inverts the index exactly when no id is packed twice |
| `Pack.RowsLaw` | crates/core/src/pack.rs:180-211 | the row parser accepts exactly strictly ascending rows, and rejects all others |
| `Pack.ParseIndexExact` | crates/core/src/pack.rs:163-211 | the index parser accepts exactly the bytes of strictly ascending rows that fit their fields, and returns those rows |
| `Pack.BodySplit` | crates/core/src/pack.rs:43-59 | every record lies at its offset, between the records before and after it |
| `PackAccount.ScanAccount` | crates/core/src/pack.rs:310-352 | on arbitrary bytes: each object delivered lies at its offset and its decompressed bytes hash to its id; a read stops at the end, at verified bytes that are no object, or at the first record that cannot be verified |
| `PackAccount.PackAccounted` | crates/core/src/pack.rs:310-352 | the same of a whole pack, which must begin with eight fixed bytes |
| `PackAccount.ReadAtIff` | crates/core/src/pack.rs:261-302 | on arbitrary bytes: a read at an offset returns an object exactly when the record there is verified and decodes to it; other bytes that decompress are malformed |
| `PackAccount.UnpackIff` | crates/core/src/pack.rs:281-302 | unpacking succeeds exactly on a payload that decompresses within the cap to bytes with that hash which decode |
| `PackAccount.PackBegins` | crates/core/src/pack.rs:38-42 | every pack begins with the eight fixed bytes |
| `PackAccount.EntryDescribes` | crates/core/src/pack.rs:43-59 | an index row gives the id, the place and the length of its record |
| `PackAccount.IndexLayout` | crates/core/src/pack.rs:62-71 | an index is eight fixed bytes, a count, and rows of id, offset and length, least significant byte first |
| `PackIO.WriteIndex` | crates/core/src/pack.rs:62-71 | the index bytes of the given rows |
| `PackIO.BuildPack` | crates/core/src/pack.rs:38-72 | body and index of the batch writer |
| `PackIO.PackWriter.constructor` | crates/core/src/pack.rs:97-108 | the header and nothing else has been written |
| `PackIO.PackWriter.WriteObject` | crates/core/src/pack.rs:113-134 | one more record, the offset of its length kept exact |
| `PackIO.PackWriter.Finish` | crates/core/src/pack.rs:139-158 | the index, or an error when fewer or more objects than promised were written |
| `PackIO.WritersAgree` | crates/core/src/pack.rs:92-159 | the incremental writer emits the batch writer's bytes |
| `PackIO.ReadIndex` | crates/core/src/pack.rs:163-211 | the loop accepts and returns what the index grammar does |
| `PackIO.ParsePack` | crates/core/src/pack.rs:310-352 | the in-memory reader computes the uncapped scan, and delivers nothing under an id that its bytes do not hash to |
| `PackIO.ReadUpTo` | crates/core/src/pack.rs:359-368 | exactly the first min(n, length) bytes; fails exactly when a fault or an interruption comes before them |
| `PackIO.OpenDecoder` | crates/core/src/pack.rs:431-433 | a reader of the decompressed payload, or of some of it and a fault |
| `PackIO.Inflate` | crates/core/src/pack.rs:431-436 | at most one byte more than the cap is taken from the decompressing reader, and a result within the cap is the whole output |
| `PackIO.OpenRecord` | crates/core/src/pack.rs:431-452 | a record is decompressed under the cap, its hash compared with its id, and decoded, or refused with the error the format says |
| `PackIO.NextRecord` | crates/core/src/pack.rs:403-425 | one record from a stream, exactly the bytes it takes; a clean end exactly at one; an I/O error exactly when the id is cut by a fault or an interruption; corrupt exactly when it is incomplete, over the cap or a fault lies in its other parts |
| `PackIO.ReadPayload` | crates/core/src/pack.rs:413-425 | a length and as many bytes, read exactly when they are there, within the cap and free of faults |
| `PackIO.ParseRecords` | crates/core/src/pack.rs:320-352 | the loop over the records of a pack with a good header |
| `PackIO.StreamBody` | crates/core/src/pack.rs:400-456 | the loop over the records of a stream past its header |
| `PackIO.AcceptingCallback` | crates/core/src/pack.rs:386-390 | a callback that refuses nothing does not change the outcome |
| `PackIO.StreamPack` | crates/core/src/pack.rs:386-456 | on every stream, with faults and interruptions anywhere: the scan of the stream's events, cut at the callback's first refusal |
| `PackIO.StreamScanLaw` | crates/core/src/pack.rs:386-456 | the scan of a stream delivers a prefix of what the scan of its bytes does; it is that scan on a clean stream and whenever it succeeds, and it succeeds on no stream with a fault |
| `PackStreams.RecordsAccounted` | crates/core/src/pack.rs:400-456 | on any source: each object streamed lies at its offset, was verified and was read undisturbed, and the stream stops for exactly the reason it gives |
| `PackStreams.StreamAccounted` | crates/core/src/pack.rs:386-456 | the same of a whole stream, whose eight fixed bytes must come before any fault |
| `Intake.RecopyLinear` | crates/core/src/lib.rs:111-126 | all growths together recopy at most ten times the bytes in hand |
| `Intake.StepFits` | crates/core/src/lib.rs:120-126 | a growth step stays within max(8 MiB, received/8) and the limit |
| `Intake.NextStepIs` | crates/core/src/lib.rs:120-126 | growth is geometric from 64 KiB to 8 MiB, then by 8 MiB, then by an eighth of what is in hand |
| `Intake.Source.Read` | crates/core/src/lib.rs:152-157 | one read: bytes, end, interruption or fault |
| `Intake.Buffer.constructor` | crates/core/src/lib.rs:139-140 | an empty buffer, nothing allocated |
| `Intake.Buffer.Grow` | crates/core/src/lib.rs:142-151 | a full buffer grows within the allowance and the limit, keeps its bytes, and the copy is charged |
| `Intake.Buffer.ReadFrom` | crates/core/src/lib.rs:152-157 | a read lands behind the bytes already there and allocates nothing |
| `Intake.ReadLimited` | crates/core/src/lib.rs:134-161 | exactly the first min(limit, length) bytes, leaving exactly the events after them, an error exactly on a fault before them; the buffer used is ahead of the bytes received by at most max(8 MiB, received/8), its growths lead from nothing to its size, and they recopied at most ten times the bytes received |
| `Intake.ReadExact` | crates/core/src/lib.rs:166-172 | the bytes, or a failure exactly when they are not all there |
| `StoreEvict.EnsureCapacityKeeps` | crates/core/src/store.rs:332-371 | making room keeps the invariant, evicts blobs and does nothing else; success means the room is there |
| `StoreEvict.EvictionLosesNothing` | crates/core/src/store.rs:358-411 | no object is lost to eviction and none appears |
| `StoreEvict.EvictsColdestFirst` | crates/core/src/store.rs:340-346 | every victim was last used before every evictable survivor |
| `StoreEvict.EvictsNoMore` | crates/core/src/store.rs:332-371 | with the last victim back there would be no room |
| `StoreEvict.EvictionSucceedsIff` | crates/core/src/store.rs:332-371 | room is made exactly when the object fits the budget at all |
| `StoreEvict.NoSpillNeverEvicts` | crates/core/src/store.rs:359-366 | without a spill directory nothing is evicted, and it succeeds exactly when there is room |
| `StoreEvict.SpillPanicsIff` | crates/core/src/store.rs:381-386 | spilling aborts exactly when a sealed object stands before the room needed |
| `StoreEvict.PersistentNeverPanics` | crates/core/src/store.rs:406-411 | the durable backend never aborts while evicting |
| `StoreEvict.NoSpillReports` | crates/core/src/store.rs:359-366 | without a spill directory, the bytes reported as available are those resident |
| `StoreEvict.EvictionsCounted` | crates/core/src/store.rs:381-411 | the eviction counter counts the residents that went |
| `StoreLaws.PutKeeps` | crates/core/src/store.rs:165-196 | put keeps the invariant, also when it fails |
| `StoreLaws.PutReturns` | crates/core/src/store.rs:165-196 | exactly when put succeeds on each backend, and the error otherwise with its three figures |
| `StoreLaws.GetKeeps` | crates/core/src/store.rs:199-249 | get keeps the invariant, also when it fails |
| `StoreLaws.GetReturns` | crates/core/src/store.rs:199-249 | get finds exactly the contained ids, returns the id's bytes, and refuses only objects larger than the budget |
| `StoreLaws.DeleteKeeps` | crates/core/src/store.rs:448-461 | delete keeps the invariant |
| `StoreLaws.FilesAgree` | crates/core/src/store.rs:583-593 | a pack and an index of one name belong together, whoever wrote them |
| `StoreLaws.KeepSpec` | crates/core/src/store.rs:588-593 | loading an index adds exactly its ids and keeps every location there was |
| `StorePacks.LoadSpec` | crates/core/src/store.rs:567-596 | a load of good files succeeds, its ids are those of indexes whose pack is there, and every location is good |
| `StorePacks.GetAllKeeps` | crates/core/src/store.rs:672-676 | reading the objects to pack touches nothing durable and returns their canonical bytes |
| `StorePacks.WritePackKeeps` | crates/core/src/store.rs:672-685 | packing readable objects, no id twice, succeeds and keeps the invariant |
| `StorePacks.WritePackTwiceFails` | crates/core/src/store.rs:672-685 | packing an id twice fails and so does every later reload |
| `StorePacks.DeletePackKeeps` | crates/core/src/store.rs:688-700 | removing a pack succeeds and keeps the invariant |
| `StoreRuns.RunKeeps` | crates/core/src/store.rs:92-104 | in every reachable state, error returns included: bytes exact and within budget, stamps distinct, resident and spilled disjoint, every copy readable |
| `StoreRuns.StepSafe` | crates/core/src/store.rs:165-256 | no operation loses an object it does not remove, and only put adds one |
| `StoreRuns.PutDurableIff` | crates/core/src/store.rs:163-196 | a put that reports success has made the object durable exactly when it was, or was not in memory |
| `StoreRuns.NothingLost` | crates/core/src/store.rs:165-256 | over every run, an object not removed stays and is read back with the same encoding |
| `StoreRuns.NothingAppears` | crates/core/src/store.rs:165-256 | over every run, an id nobody puts never appears |
| `StoreRuns.StepRefines` | crates/core/src/store.rs:632-700 | each step adds and removes exactly what it says; a pack deletion keeps durability exactly when no resident object loses its last copy |
| `StoreRuns.RunRefines` | crates/core/src/store.rs:165-256 | the same over every run |
| `StoreRuns.IdsAgree` | crates/core/src/store.rs:632-638 | all_ids lists exactly the ids contains accepts and get does not answer "not found" for |
| `StoreRecency.GetUses` | crates/core/src/store.rs:199-249 | a get that answers leaves its object in memory with the latest stamp, no other get stamps anything, and what it evicts was stamped before what it leaves |
| `StoreRecency.PutUses` | crates/core/src/store.rs:165-196 | the same of a put that succeeds exactly when the object was not held before |
| `StoreRecency.StampsAreUses` | crates/core/src/store.rs:92-96 | over every run, stamps order two residents as their last uses in the sequence of operations do |
| `StoreRecency.EvictsLeastRecent` | crates/core/src/store.rs:332-371 | over every run, an object evicted was last used before every sized object left in memory |
| `StoreRecency.StructureStays` | crates/core/src/store.rs:340-346 | no put or get evicts an object that is neither a blob nor sealed: only their bytes are charged |
| `StoreRecency.PackReadsAreGets` | crates/core/src/store.rs:672-676 | the reads of a pack write are gets of its ids in order |
| `StoreRecency.SecondPutIsNoUse` | crates/core/src/store.rs:165-169 | two objects put and the first put again: the first is still the one used longer ago |
| `StoreRecency.GetCounts` | crates/core/src/store.rs:206-245 | a get counts as a rehydration exactly when it answers from outside memory, and the evictions counted are the residents gone |
| `StoreVerified.GetVerified` | crates/core/src/store.rs:199-249 | whatever the files hold, an object returned from disk has bytes that hash to its id |
| `StoreVerified.TamperedRefused` | crates/core/src/store.rs:199-249 | a spilled, loose or packed file with other bytes in it is refused as malformed, and nothing changes |
| `StoreMap.StepAgreesIff` | crates/core/src/store.rs:165-256 | an operation leaves the store durable and moves it as it moves a plain map of ids, packs and bytes, exactly when it deletes no pack with the last disk copy of a resident object or of one put and not deleted |
| `StoreMap.RunAgrees` | crates/core/src/store.rs:165-256 | every run in which each pack deletion meets that condition is a run of the plain map |
| `StoreMap.RunAgreesIff` | crates/core/src/store.rs:688-700 | and only those runs stay durable and in agreement after every step |
| `StoreMap.StoreIsMap` | crates/core/src/store.rs:165-256 | from an empty store on any backend: contains, all_ids and get answer as the map, get returns the map's bytes, and does so whenever the object fits the budget |
| `StoreCases.SealedObjectAborts` | crates/core/src/store.rs:381-386 | put a sealed object, then a blob that does not fit beside it: the program aborts |
| `StoreCases.ResidentOutlivesPack` | crates/core/src/store.rs:688-700 | put, pack, delete, read, delete the pack: the object is in memory and on no disk, and a put of it reports success and changes nothing |
| `StoreCases.DeletedWithItsPack` | crates/core/src/store.rs:688-700 | without the read the run meets the condition, and the object is gone from store and map |
| `StoreWorld.CodecMakesWorld` | crates/core/src/object.rs:363-368 | the canonical codec meets every assumption the store makes of a codec |
| `StoreObject.Store.constructor` | crates/core/src/store.rs:107-119 | an empty store |
| `StoreObject.Store.FindColdest` | crates/core/src/store.rs:340-346 | the scan finds the least recently used evictable blob |
| `StoreObject.Store.EvictableBytes` | crates/core/src/store.rs:373-379 | the sum of the evictable blob sizes |
| `StoreObject.Store.MakeRoom` | crates/core/src/store.rs:332-371 | the eviction loop ends and computes the specification's state and error |
| `StoreObject.Store.EvictToSpill` | crates/core/src/store.rs:381-394 | moves one blob from memory to the spill directory |
| `StoreObject.Store.Drop` | crates/core/src/store.rs:406-411 | forgets one resident copy and its bytes |
| `StoreObject.Store.PutObject` | crates/core/src/store.rs:165-196 | state and result of put, error exits included |
| `StoreObject.Store.GetObject` | crates/core/src/store.rs:199-249 | state and result of get, error exits included; the specification it computes is a use (StoreRecency.GetUses) |
| `StoreObject.Store.Has` | crates/core/src/store.rs:251-256 | contains |
| `StoreObject.Store.Ids` | crates/core/src/store.rs:617-638 | all_ids |
| `StoreObject.Store.Remove` | crates/core/src/store.rs:448-461 | the state after delete |
| `StoreObject.Store.ReloadPacks` | crates/core/src/store.rs:567-596 | the index after a reload, or the error that stopped it |
| `StoreObject.Store.PackObjects` | crates/core/src/store.rs:672-685 | state and result of write_pack |
| `StoreObject.Store.RemovePack` | crates/core/src/store.rs:688-700 | state and result of delete_pack |
| `CrashSafety.PrefixSound` | crates/core/src/fsutil.rs:31-50 | after any prefix of the steps of any pack writes and deletions, every name is bound only to synced, right contents |
| `CrashSafety.ReloadAfterCrash` | crates/core/src/store.rs:567-596 | from any sound directory, after a crash anywhere in pack writes and deletions, a reload succeeds and every row finds its complete record |
| `CrashSafety.OnlySyncedIsKept` | crates/core/src/fsutil.rs:31-50 | what was written and not synced may be anything after a crash, and what was synced is there |
| `CrashSafety.PackComesFirst` | crates/core/src/store.rs:679-682 | wherever a pack write stops, an index that was not there before is there only with its pack |
| `CrashLives.RestartSound` | crates/core/src/fsutil.rs:31-50 | what a crash leaves is again a sound directory to run on, with temporary names whose files are not shared |
| `CrashLives.CrashSafe` | crates/core/src/store.rs:567-700 | over any number of lives, each stopped at any effect and crashed, every reload succeeds and every row finds its complete record; a life may use temporary names again whose files no other name has |
| `CrashLives.AtomicCrashSafe` | crates/core/src/fsutil.rs:31-50 | the same with atomic renames, whatever temporary names the lives use again |
| `CrashLives.ReuseSafeIff` | crates/core/src/fsutil.rs:38-44 | using a temporary name again leaves every pack and index right after any crash exactly when its file is not one a crash may find under the name of a pack or an index |
| `CrashLives.ReuseEmptiesPack` | crates/core/src/fsutil.rs:38-44 | a directory with both names of a rename, and a temporary name used again: the index lists rows that do not resolve |
| `CrashLives.OrphanLeft` | crates/core/src/store.rs:688-700 | a removal stopped after its first effect can leave an index without its pack |
| `CrashLives.OrphanRevived` | crates/core/src/store.rs:583-593 | such an index, revived after a restart by a later pack of its name, serves all of that pack's items |
| `CrashLives.FinishedPackServed` | crates/core/src/store.rs:672-685 | once a pack write has finished and until the pack is removed, every reload after every crash of this and later lives serves all its items |
| `Admission.StepKeeps` | crates/forge/src/cgi.rs:119-148 | every step conserves the permits of every pool and keeps a pool in use in the map |
| `Admission.ReapedKeepsUsed` | crates/forge/src/cgi.rs:119-129 | reaping forgets no pool that a request holds |
| `Admission.RunKeeps` | crates/forge/src/cgi.rs:98-148 | the same over every interleaving |
| `Admission.LimitsHold` | crates/forge/src/cgi.rs:98-148 | never more transports in flight than the limit, at least 1, on a repository or in all |
| `Admission.SlotsUsedInFull` | crates/forge/src/cgi.rs:131-148 | a waiting request can take its slot exactly while fewer than the limit are held |
| `Admission.ArriveQueues` | crates/forge/src/cgi.rs:119-135 | an arrival joins the queue of its repository's pool, whether that was there, forgotten or new |
| `Admission.AloneIsAdmitted` | crates/forge/src/cgi.rs:131-148 | a request that meets nobody takes its two slots and runs |
| `Admission.ArriveBounded` | crates/forge/src/cgi.rs:119-129 | an arrival that finds more than 256 pools keeps only those in use |
| `Admission.PoolsBounded` | crates/forge/src/cgi.rs:119-129 | over every run there is at most one pool more than 256 or the most requests there were at once |
| `Admission.BlockedMeansProgress` | crates/forge/src/cgi.rs:131-148 | a blocked request implies a transport that waits for no slot, or one that can take its slot now |
| `Admission.NothingLeaks` | crates/forge/src/cgi.rs:85-97 | with nobody left every permit is home |
| `TransportStream.FirstAtSpec` | crates/forge/src/transport.rs:340-357 | the head search finds the first occurrence of its pattern, and none only when there is none |
| `TransportStream.HeadEndExact` | crates/forge/src/transport.rs:340-357 | the head ends at the end of the first CR LF CR LF or LF LF, and nowhere only where there is none |
| `TransportStream.HeadStepIff` | crates/forge/src/transport.rs:340-357 | a read goes on to the body exactly when a blank line has come and the head is good, reads on exactly when none has come in 16 KiB, and cancels otherwise |
| `TransportStream.HeadEndStable` | crates/forge/src/transport.rs:340-357 | how the output is cut into reads does not move the end of the head |
| `TransportStream.StepKeeps` | crates/forge/src/cgi.rs:667-840 | every step of child, supervisor, reader and client keeps the bytes in order and the end marker honest |
| `TransportStream.RunKeeps` | crates/forge/src/cgi.rs:667-840 | the same over every interleaving |
| `TransportStream.CleanEndIsComplete` | crates/forge/src/cgi.rs:160-181 | a clean end means git and all its helpers are gone, git by itself with success, and the client has every byte after the first blank line, in order |
| `TransportStream.CleanMeansUndisturbed` | crates/forge/src/cgi.rs:667-840 | a body that ended cleanly has seen no read error, no failed send, no head cut short, no client that left, and no supervisor that ended git, vanished or could not wait for it |
| `TransportStream.EveryOtherEndIsAnError` | crates/forge/src/cgi.rs:160-181 | once the reader is done, polling ends the body, with an error unless the transport was complete |
| `TransportStream.PollShows` | crates/forge/src/cgi.rs:160-181 | the client sees bytes in order, an error at once for a failure or a channel closed without the marker, and a clean end for the marker alone |
| `TransportStream.HeadlessAnswered` | crates/forge/src/cgi.rs:690-697 | a head that never comes is answered with an error |
| `TransportStream.HelperHoldsPipe` | crates/forge/src/cgi.rs:800-812 | a helper holds the pipe open after git is gone |
| `TransportStream.StopsAreSeen` | crates/forge/src/cgi.rs:690-740 | a reader that cannot go on stops, and a cancellation is there for the supervisor to see |
| `TransportStream.EndsAreFinal` | crates/forge/src/cgi.rs:160-181 | a client that has left or has seen the end sees nothing else |
| `TransportStream.AbandonedIsCancelled` | crates/forge/src/cgi.rs:667-740 | once the client is gone or the reader has stopped with output to come, the supervisor may end git at once; the channel never holds more than four items |
| `TransportStream.CancelledWasAsked` | crates/forge/src/cgi.rs:790-806 | git is ended as cancelled only if the transport was |
| `TransportStream.CleanEndHappens` | crates/forge/src/cgi.rs:667-840 | for every head and every body, the empty one included, there is a run that ends cleanly with it |
| `Publish.StepKeeps` | crates/forge/src/content_write.rs:279-447 | every step of the write and of other writers keeps the invariant: past its tip read a round has a tip of the base, or makes the first commit of the default branch |
| `Publish.MovesLoseNothing` | crates/forge/src/content_write.rs:394-447 | each of at most three moves replaces exactly the tip its commit was built on, or makes the first commit of the default branch, or a new branch on a tip of the base; so no commit leaves the history by it |
| `Publish.AtMostThreeSwaps` | crates/forge/src/content_write.rs:279-402 | over every run the ref is asked to move at most three times |
| `Publish.PublishedWasThere` | crates/forge/src/content_write.rs:404-429 | a write answered as published was in the history of the branch it names |
| `Publish.ParentsTold` | crates/forge/src/content_write.rs:283-292 | in every reachable state past a tip read that found nothing, the write makes the first commit of the default branch |
| `Publish.MissingBranchAnswered` | crates/forge/src/content_write.rs:290-292 | a write to a missing branch that is no first commit stores nothing, moves nothing and is answered that there is none |
| `Publish.AnswerIff` | crates/forge/src/content_write.rs:252-470 | each answer is given by exactly the events said, in terms of what the refs hold and what git reported |
| `Publish.AnsweredBy` | crates/forge/src/content_write.rs:252-470 | every run that was answered has one event that the answer is due to |
| `Publish.RefusedStoresExactly` | crates/forge/src/content_write.rs:328-354 | a refused request has stored a blob exactly when it is no deletion and its check had passed before |
| `Publish.RefusedCanHaveStored` | crates/forge/src/content_write.rs:275-354 | a run in which a refused request has stored its blob |
| `Publish.AnswersStore` | crates/forge/src/content_write.rs:328-447 | for every answer, a blob is stored exactly when the run got to store one and the write is no deletion; which answers that decides |
| `Publish.DeniedCanHaveStored` | crates/forge/src/content_write.rs:394-401 | a run whose first round stores the blob and is then denied |
| `Keyed.AbsorbAllLocal` | crates/repo/src/protect.rs:37-61 | what is found under a key after absorbing depends only on what was found before and on what is absorbed |
| `Keyed.SameFoundSortAlike` | crates/core/src/object.rs:405-424 | lists that find the same elements sort alike |
| `Registers.Rule.constructor` | crates/core/src/object.rs:54-57 | a rule with the given registers |
| `Registers.Rule.SetStanding` | crates/core/src/object.rs:77-85 | the register of the key is replaced or appended |
| `Registers.Rule.HighestEpoch` | crates/core/src/object.rs:72-74 | the highest epoch of the rule |
| `Registers.Rule.Change` | crates/core/src/object.rs:72-85 | a change stamped with the next epoch |
| `Registers.Rule.Granted` | crates/core/src/object.rs:62-68 | the keys with granted standing, in order |
| `Registers.NextEpochWinsIff` | crates/core/src/object.rs:72-74 | the next epoch beats every register exactly while 32 bits can hold it |
| `Registers.GrantedIff` | crates/core/src/object.rs:62-68 | with one register per key, a key is granted exactly when its register says so |
| `Registers.RevokeTakesIff` | crates/core/src/object.rs:77-85 | a revoked key is out exactly when no later register of it grants it |
| `Registers.TwiceListedOutlivesRevoke` | crates/core/src/object.rs:77-85 | a key listed twice is still granted after a revoke |
| `Registers.EpochsRise` | crates/core/src/object.rs:70-85 | each change of a run raises the highest epoch by one |
| `Registers.LaterEpochsWin` | crates/core/src/object.rs:70-85 | a later change's epoch exceeds every earlier one |
| `Registers.RunGrants` | crates/core/src/object.rs:59-86 | after any run: one register per key, and the granted keys are those whose last change was a grant |
| `PolicyMerge.MergeRecipients` | crates/repo/src/protect.rs:43-56 | the register loop computes the join of two rules |
| `PolicyMerge.MergePrefixes` | crates/repo/src/protect.rs:37-61 | the loop computes the merge |
| `PolicyMerge.MergeJoins` | crates/repo/src/protect.rs:31-61 | for all policies, whatever they list twice: no prefix disappears, and each key's standing in the merge is the later of its standings on both sides |
| `PolicyMerge.MergeTidyIff` | crates/repo/src/protect.rs:37-61 | for all policies the merge has one rule per prefix, and one register per key exactly when the first rule of each prefix has |
| `PolicyMerge.MergeCommutes` | crates/repo/src/protect.rs:31-61 | for all policies, the order of the two sides does not matter |
| `PolicyMerge.MergeAssociates` | crates/repo/src/protect.rs:31-61 | for all policies, the order of three merges does not matter |
| `PolicyMerge.MergeIdempotent` | crates/repo/src/protect.rs:31-61 | for all policies, merging one with itself changes nothing |
| `PolicyMerge.RulesEncodeAlikeIff` | crates/core/src/object.rs:405-424 | with one rule per prefix, as every merge has, the canonical encodings agree exactly when the rules have the same registers |
| `PolicyMerge.SamePolicyEncodesAlike` | crates/core/src/object.rs:405-424 | snapshots whose tidy policies say the same have the same bytes |
| `PolicyMerge.TombstoneSurvives` | crates/repo/src/protect.rs:31-61 | a revoke survives merging any branches without a newer register of the key, whatever they list twice |
| `PolicyMerge.ForkedRevokeHolds` | crates/repo/src/protect.rs:31-61 | a revoke on one side of a fork holds in the merge, in either order, if the other side left the key alone |
| `MergeOrder.MergeOrderExact` | crates/repo/src/protect.rs:31-61 | for all policies, a merge snapshot has the same canonical encoding whichever side was merged into which exactly when the first rules of every shared prefix repeat the same registers of each key |
| `MergeOrder.MergeOrderForgotten` | crates/repo/src/protect.rs:31-61 | a merge snapshot has the same bytes whichever side was merged into which, if the first rules of shared prefixes list no key twice |
| `MergeOrder.MergeOrderShows` | crates/repo/src/protect.rs:37-61 | it has different bytes if exactly one side's first rule of a shared prefix lists a key twice |
| `MergeOrder.SameRepeatsSameBytes` | crates/core/src/object.rs:405-424 | under that condition the program may write exactly the same bytes for both, whatever its unstable sort does |
| `MergeOrder.MergeBytesExact` | crates/core/src/object.rs:405-424 | where no rule of either merge has two different registers for a key, the bytes the program writes agree exactly under that condition |
| `Envelope.Rng.constructor` | crates/crypto/src/envelope.rs:29-34 | a generator at its start |
| `Envelope.Rng.Fill` | crates/crypto/src/envelope.rs:35-38 | the next bytes of the generator, each drawn once |
| `Envelope.UnwrapWrapped` | crates/crypto/src/envelope.rs:244-305 | a wrap for a public key opens with its secret key |
| `Envelope.UnwrapIff` | crates/crypto/src/envelope.rs:274-305 | of any bytes: a wrap opens exactly when it holds a public key, a nonce and what decrypts to 32 bytes under the key derived from them |
| `Envelope.OpenIff` | crates/crypto/src/envelope.rs:67-97 | of any secret: it opens exactly when its first wrap for the reader opens, its nonce has 24 bytes, and its ciphertext decrypts under that data key with its name as associated data; not addressed exactly when it has no such wrap |
| `Envelope.RewrapIff` | crates/crypto/src/envelope.rs:101-120 | of any secret: a grant succeeds exactly when the first wrap of the granter opens, and changes only the wraps |
| `Envelope.WrapDek` | crates/crypto/src/envelope.rs:244-272 | the wrap of the data key with fresh randomness |
| `Envelope.Seal` | crates/crypto/src/envelope.rs:29-63 | the sealed secret with one wrap per recipient in order |
| `Envelope.Retain` | crates/crypto/src/envelope.rs:116-131 | the wraps not addressed to an id, in order |
| `Envelope.RewrapFor` | crates/crypto/src/envelope.rs:101-120 | a grant's secret, or the error and no randomness drawn |
| `Envelope.Revoke` | crates/crypto/src/envelope.rs:126-131 | the secret without an id's wraps |
| `Envelope.RunKeeps` | crates/crypto/src/envelope.rs:67-131 | over any run the sealed fields stay and an id has a usable wrap exactly when its last event gave it one |
| `Envelope.OpensExactlyHolders` | crates/crypto/src/envelope.rs:29-131 | after any run an identity opens to the plaintext exactly when its last event was the seal or a grant, and is refused as a non-recipient otherwise |
| `Envelope.GrantRefusedIff` | crates/crypto/src/envelope.rs:101-120 | a grant fails exactly when the granter does not hold the secret, and then changes nothing |
| `Envelope.RunKeepsOnePerId` | crates/crypto/src/envelope.rs:116-131 | runs never give an id a second wrap |
| `Civil.YearOfEraFinds` | crates/forge/src/timefmt.rs:18-22 | the closed form finds the year of the era that contains the day |
| `Civil.MonthFinds` | crates/forge/src/timefmt.rs:23-25 | the closed form finds the month that contains the day |
| `Civil.DatesSucceed` | crates/forge/src/timefmt.rs:14-26 | for every day the date is valid and the next day's is its successor |
| `Civil.DateHasDayNumber` | crates/forge/src/timefmt.rs:14-26 | for every day, before and after 1970, the date's day number is the day |
| `Civil.VersionsAgree` | crates/cli/src/main.rs:2788-2801 | the command line computes the forge's date |
| `CivilText.FourDigitYears` | crates/forge/src/timefmt.rs:14-26 | the days whose date has a year from 0000 to 9999 are those from -719528 to 2932896 |
| `CivilText.TextRoundTrip` | crates/forge/src/timefmt.rs:14-33 | the text denotes its timestamp under RFC 3339 exactly on those days, and is no RFC 3339 date-time on any other |
| `CivilText.TextsAgree` | crates/cli/src/main.rs:2788-2809 | both texts show the same date and minute, for every timestamp |
| `Base64.Position` | crates/forge/src/b64.rs:30-30 | the table search finds the value of a symbol |
| `Base64.EncodeChunk` | crates/forge/src/b64.rs:8-18 | the four symbols of a group |
| `Base64.EncodeBytes` | crates/forge/src/b64.rs:6-21 | the padded encoding |
| `Base64.StripWhite` | crates/forge/src/b64.rs:26-26 | the text without ASCII whitespace |
| `Base64.ReadGroup` | crates/forge/src/b64.rs:33-48 | the bytes of a group, or a refusal of bad symbols and padding |
| `Base64.DecodeBytes` | crates/forge/src/b64.rs:25-51 | the decoder by groups |
| `Base64.DecodeStripped` | crates/forge/src/b64.rs:27-51 | the loop over the groups of a text without whitespace |
| `Base64.BitDecodeBytes` | crates/forge/src/auth.rs:33-54 | the decoder by bit accumulator, which fits 32 bits |
| `Base64.DecodeInverts` | crates/forge/src/b64.rs:6-51 | decoding inverts encoding with tabs, line feeds, form feeds, carriage returns and spaces anywhere in it |
| `Base64.RoundTrip` | crates/forge/src/b64.rs:6-51 | decoding inverts encoding |
| `Base64.Examples` | crates/forge/src/b64.rs:6-21 | three of the examples of RFC 4648 |
| `Base64.DecodeExact` | crates/forge/src/b64.rs:6-51 | the texts that decode to given bytes and discard no set bit are exactly its encoding with those five bytes anywhere in it |
| `Base64.DecodersAgree` | crates/forge/src/auth.rs:33-54 | on every whitespace-free text the padded decoder accepts, both return the same bytes |
| `Ancestry.VisitParents` | crates/cli/src/main.rs:3028-3032 | queues each unseen parent once, in order |
| `Ancestry.HistoryAllParents` | crates/cli/src/main.rs:3011-3035 | the walk ends; it returns every ancestor once, the tip first, by non-decreasing distance, or fails on an ancestor that cannot be read |
| `Ancestry.TallyHistory` | crates/cli/src/main.rs:3048-3069 | each tally counts its status, in 32 bits; fails exactly on an unreadable status |
| `Ancestry.StatusesSplit` | crates/cli/src/main.rs:3048-3069 | the four classes split the walk |
| `Ancestry.Verify` | crates/cli/src/main.rs:3046-3074 | the tallies count the ancestors by status and sum to their number |

## Left out

- Failing file-system calls inside the store (only missing files, malformed contents and panics are modelled), torn spill writes, and loose files in the legacy flat layout.
- `blob_size` and its streaming measurement, `list_loose` and modification times, statistics counters beyond evictions and rehydrations: they would add only easy members.
- `Store.Ids` returns the set of ids; the order of the returned vector is not modelled.
- `Tree::get`, `drop_tombstone` and `dropped_id`: single lookups.
- Object and pack lengths of 2^32 or more, which the encoder would truncate, are outside the codec theorems.
- Real cryptography, BLAKE3 and zstd: function values with the laws stated above. That a wrong key fails to decrypt is not assumed and not used. Convergent and randomized path encryption repeat the envelope's round trip.
- CrashLives.CrashSafe: covers the pack directory; loose object files are written by the same steps but are not part of it. Temporary names are numbers; the program's also carry the pack's name and the process id, so it uses fewer of them again.
- The transport's stdin pump, its disk reservation and the request body decompression.
- HTTP parsing, JSON, SQL, git plumbing: git's `update-ref new expected` is an atomic compare-and-swap, and what it prints on failure is arbitrary.
- Publish.MovesLoseNothing: what branch protection decides and whether another branch's name lies under or over the new one are arbitrary; when they are asked is modelled.
- `union_wraps` and the decryption search of the policy: the first wrap for an id wins by argument order, as its documentation says.
- Registers.EpochsRise: the run theorems about epochs stop where a 32-bit epoch would wrap; NextEpochWinsIff says what happens there.
- Timing claims (constant-time comparison, password delay), the desktop application and the rest of the command line.
