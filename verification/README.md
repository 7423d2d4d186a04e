# Verification of the cache-key index and its neighbours

The server keeps an index of the action hashes it stores. Clients hold a copy of that index and
answer lookups from it, so a wrong copy turns a hit into a miss or a miss into a wasted request.
This project models the index as a replicated data structure, from the bits of the wire format up
to whole runs of one server and many client processes, and proves what the two sides may rely on.
Smaller state machines and algorithms of the same program follow.

`dafny verify dfyconfig.toml` checks everything (Dafny 4.11).

## How it is built

Code that changes things in place is modelled in place: bit writers and readers, the sorted slice
with its merge from the end, the server's index object, the client's live set, the slot queue, the
fetch judge, the store, the cache and the scan loops are classes and loops. Each is proved against
a function or a state of the same name, and the theorems are about those.

| files | what they model |
|---|---|
| `Words`, `Bits`, `BitIO` | 64-bit words, bit strings, the bit writer and the bit reader |
| `Gbci`, `IndexV2`, `IndexV2Codec` | the GBCI frame and the v2 form: specification, then the code |
| `Sorted`, `Prefixes`, `HashLists`, `IndexForms`, `IndexV1` | hashes, their prefixes, sorted lists, v1 and v2 blobs of a set |
| `AddLog`, `AddLogRuns`, `EntryLists`, `ServerIndex` | the index as a state machine over its whole life, its list by time, and the object |
| `SortedSet`, `KeySet`, `ClientBlobs`, `MergeBlobs` | the client's key set, and its blobs |
| `IndexClient`, `LiveIndex`, `JournalReplay` | one client: claims, drops, journal, background load, live position |
| `IndexSystem`, `IndexRuns` | the server, the two files on disk and any number of processes together |
| `IndexTrust`, `IndexGround`, `IndexMoves`, `IndexRestart` | in those runs: when a set is trusted, what it stands for, what becomes of it, and how it catches up |
| `Eviction`, `Sweep` | the cutoff of an eviction pass, and the pass on a store that others change |
| `LruCache`, `LruRuns`, `LruOrders`, `LruUses` | the cache, all interleavings of its calls, which of them keep the budget, and the order of use |
| `ObjAttrs`, `AttrBytes`, `AttrWriter` | the encoding of attributes, and the writer that drops what does not fit |
| `Admission`, `AdmissionRuns` | work slots and the requests that wait for them |
| `Fallback`, `FallbackRuns` | the fetch that is judged by what the build uses |
| `NearbyScan`, `Lz4Head`, `Lz4Shown` | the search by time, and the LZ4 shortcut |
| `Options` | an optional value |

## Main results

- **Served blobs and deltas are true** (`AddLog.ServedBlobIsTrue`, `AddLog.DeltaBringsCurrent`), in
  every run of puts, removals, rebuilds, log overflows, restarts and stale serving. They are fresh as
  well: a blob is that of the set advertised now, or was built less than the interval ago
  (`AddLogRuns.ServedIsFresh`), and none is built sooner (`AddLogRuns.BuildsAreSpaced`).
- **The disk copy never lies** (`IndexRuns.DiskNeverLies`, `IndexRuns.CopyReadIsTrue`). Under any
  crash, any lost write and any interleaving of processes that write the two files.
- **An authoritative miss is a miss** (`IndexRuns.MissIsSound`, `IndexMoves.UnaskedMissIsSound`), across
  full fetch, 304, delta, another process's refresh, journal adoption, live refresh, claims and drops.
  A set is authoritative exactly when the load of its process ended with something to trust
  (`IndexTrust.AuthoritativeIff`), it then stands for a whole index (`IndexGround.AuthoritativeIsWhole`),
  and a key that is held is one the server advertised or the client claimed (`IndexRuns.HitIsSound`).
- **One delta catches up**, live (`IndexMoves.LiveDeltaCatchesUp`) and after a restart, on disk too
  (`IndexRestart.RestartCatchesUp`).
- **The v2 codec** is exact in both directions on arbitrary bytes (`IndexV2.ParseExactly`) and its
  word-level code equals the bit-string specification. The server's writer followed by the client's
  reader gives back every list at every width (`IndexV2Codec.WriteAndRead`).
- **The key set is a set** (`SortedSet`, `KeySet`), through buffered adds and deletes, the in-place
  merge and narrowing.
- **The cache** agrees with itself in every interleaving of its calls, every shard is in the order of
  last use (`LruUses.ListedByUse`), and fits the budget that the last call to cut it had read
  (`LruRuns.FitsWhatWasRead`). It can be over the current one; `LruOrders.FitsIff` and `LruOrders.FitsAtRestIff` say for exactly which orders of
  reads, stores and locks.
- **Attributes** decode to what was encoded (`ObjAttrs.RoundTrip`). When they do not fit, the longest
  go first and nothing droppable stays exactly when `AttrWriter.LongestFirstIff` and
  `AttrWriter.DropsAllIff` say, over every order in which the map may be walked.
- **One eviction pass** takes what is older than the age limit and what the size limit needs, and no
  more; whatever others do to the store meanwhile,
  a file goes only after its key left the index and, unless its time is before 1970, only if it was
  found as the walk saw it (`Sweep.Storage.Evict`). `Eviction.SizeCutoff` proves that the return which
  `eviction.go:228` calls unreachable is.
- **Slots** are conserved and granted in order, no grant is lost, and only a full line turns a request
  away (`Admission`, `AdmissionRuns`); **the fallback fetch** neither deadlocks nor loses a wakeup, and
  goes on or stops by what was used (`Fallback`, `FallbackRuns`); **the outward scan** is a sort by
  distance and then time (`NearbyScan`); **the LZ4 shortcut** never contradicts a decode (`Lz4Head`).

## Premises

- SHA-256 is a parameter: any function to 32 bytes. Only `IndexRuns` needs more, that no two
  accepted blobs of the run have the same trailer (`IndexSystem.NoCollision`).
- A new epoch is random in the source. Here it is any value the run has not used before.
- The source's counts are machine words. `IndexSystem.Fits`, `MAX_VALUES` and `MAX_BLOB` say that
  sets, lists and blobs stay below 2^64 members, 2^57 values and 2^61 bytes.
- Clocks, timers, replies and failures are steps or parameters that may take any value.

## Where code and documentation differ

- `cacheclient/web_index_delta.go:192-193` calls the copy that a delta load starts from young; the
  code starts one from a copy of any age, as `cacheclient/web_index_load.go:76` says. The model
  follows the code.
- `storage_unix.go:133-135` says the longest optional value is dropped. The search takes the empty
  key for "none found", so with an empty key in the map it can stop early or take a shorter one.
  `AttrWriter.EmptyKeyHides` is an input and `AttrWriter.FindsLongestIff` the exact condition for one
  search; for the whole writer they are `AttrWriter.DropsAllIff` and `AttrWriter.LongestFirstIff`.
- `lrucache.go:137` says that SetBudget evicts down to the new budget. A Put reads the budget before it
  locks (`lrucache.go:90`), so one that began earlier can fill a shard again after it was cut.
  `LruOrders.StraddlingPut` is such a run, at rest; `LruOrders.FitsAtRestIff` is the exact condition,
  and `LruOrders.PromptFitsAtRest` one on the reads alone.
- `cacheclient/web_index_load.go:143-145` says that adoption replays the claims and drops. All claims
  come before all drops, so the order of events can be lost: `JournalReplay.ClaimIsLost` shows how,
  and `JournalReplay.ReplayIsInOrderIff` exactly when not.

## Model

| member | source | states |
|---|---|---|
| BitIO.BitWriter.WriteBits | indexv2.go:97-109 | The bits written so far grow by exactly the low nbits of v, most significant first, although a long field goes out as its 32 high bits first and the accumulator is never masked. |
| BitIO.BitWriter.WriteUnary | indexv2.go:112-118 | The bits written grow by q ones and a zero, for every q. |
| BitIO.BitWriter.Flush | indexv2.go:121-127 | The bytes are the bits written, padded with zeros to a whole byte. |
| BitIO.BitReader.Refill | cacheclient/indexv2.go:218-224 | Loading bytes changes nothing of what is unread. |
| BitIO.BitReader.ReadBits | cacheclient/indexv2.go:227-245 | Reads exactly the next nbits as a number and leaves the rest, or fails exactly when fewer are left, although a long field is read with its 32 low bits last. |
| BitIO.BitReader.ReadUnary | cacheclient/indexv2.go:249-265 | Counts the leading ones and consumes the zero after them, or fails exactly when no zero is left. |
| IndexV2.ReadsWhatWasWritten | cacheclient/indexv2.go:104-167 | Reading gap-coded values followed by any bits gives back those values and those bits, for any Rice parameter. |
| IndexV2.WritesWhatWasRead | cacheclient/indexv2.go:104-167 | Whatever bits were read as values are the bits those values are written as, so a body has one reading. |
| IndexV2.ParseExactly | cacheclient/indexv2.go:104-167 | Arbitrary bytes parse to a list and a width if and only if the frame holds, the list is strictly ascending within the width, and the body is that list written with less than a byte after it. |
| IndexV2.ParseIsSound | cacheclient/indexv2.go:104-167 | Bytes that parse gave strictly ascending values within the limit of the width they name. |
| IndexV2.ParseIsComplete | cacheclient/indexv2.go:104-167 | Every frame that holds with a body that is a list written parses to that list; the count guard refuses none. |
| IndexV2.RoundTrip | indexv2.go:32-64 | Of the specification: for every width 32 to 64 and every ascending list of that width, parsing what is written gives the list and the width. |
| IndexV2.RiceParamIs | indexv2.go:23-29 | From two values on the parameter is the width less the bit length of n - 1, never clamped. |
| IndexV2.BodyBound | indexv2.go:23-29 | The unary quotients sum to less than 2(n - 1), so the body takes less than n(k + 1) + 2n bits. |
| IndexV2.BodyLength | indexv2.go:32-64 | The gap-coded body of n values takes at most 66 bits each, from two values on, at every width. |
| IndexV2.GapsFitRange | indexv2.go:32-64 | Quotients times 2^k and the number of values stay within the range left above the previous value. |
| IndexV2Codec.MarshalGBCI2 | indexv2.go:32-64 | The server's word-level writer yields exactly the specified blob. |
| IndexV2Codec.MarshalIndexV2 | cacheclient/indexv2.go:35-68 | The client's writer yields the specified blob, and refuses exactly the lists that are not ascending within the width. |
| IndexV2Codec.Gbci2Size | indexv2.go:68-87 | The size counted on the gaps is the length of the blob, with no wrap of the total. |
| IndexV2Codec.ShiftFits | cacheclient/indexv2.go:146-149 | The shift guard holds exactly when quotient and low bits put together fit a word, and then the word operations give that number. |
| IndexV2Codec.NextGap | cacheclient/indexv2.go:138-149 | One gap is read, refused for ending early or refused for being too large, exactly as the bit string says. |
| IndexV2Codec.ReadBody | cacheclient/indexv2.go:128-166 | The reading loop equals the specification, error for error, with no wrap in the sum of a value and a gap. |
| IndexV2Codec.ParseIndexV2 | cacheclient/indexv2.go:104-167 | The word-level reader equals the specification on arbitrary bytes. |
| IndexV2Codec.WriteAndRead | indexv2.go:32-64 | Running the server's word-level writer and then the client's word-level reader gives back the list and the width, for every width 32 to 64 and every ascending list. |
| IndexV2Codec.Limit64 | cacheclient/indexv2.go:94-99 | The largest value of a width, also at width 64 where the shift would overflow. |
| Prefixes.CompareIsOrder | index.go:399-411 | Comparing hashes byte by byte is comparing the numbers their bytes write. |
| Prefixes.KeyFromTop | indexdelta.go:98-124 | The leading bits the server sends, shifted up again, are the masked key the client computes from the hash. |
| Prefixes.MaskIs | cacheclient/indexkey.go:69-72 | And-ing with the shifted mask clears exactly the low bits. |
| Prefixes.NarrowedKeys | cacheclient/indexkey.go:114-122 | Masking the keys of a set of hashes further gives the keys of those hashes at the narrower width. |
| Sorted.Compact | cacheclient/indexkey.go:114-122 | Dropping repeats in place from an ordered slice leaves each element once, strictly ascending. |
| HashLists.SortDedupe | index.go:399-411 | The result is strictly ascending and has exactly the elements given. |
| HashLists.MergeSorted | index.go:413-435 | The result is strictly ascending and is the union. |
| HashLists.Filter | index.go:365-373 | Exactly the elements that are not victims stay, and order is kept. |
| HashLists.PrefixValues | indexdelta.go:98-124 | Walking two lists with two cursors yields the distinct prefixes of their union, strictly ascending. |
| IndexForms.MarshalForm | indexdelta.go:89-94 | The blob is a function of the set of hashes and the form alone. |
| IndexForms.MarshalGBCIWidth | indexdelta.go:129-149 | The v1 blob holds the distinct prefixes of the width, ascending, each once. |
| IndexForms.Decodes | indexdelta.go:84-149 | A blob of any set in any form a server offers decodes, on the client, to exactly the keys of that set at the width of the form. |
| IndexForms.ParseIndexBlob | cacheclient/web_index.go:319-345 | The client's parser equals the specification on arbitrary bytes, v1 or v2, error for error. |
| IndexForms.ParseIndexV1 | cacheclient/web_index.go:348-370 | Entries of both v1 sizes give their leading eight bytes as keys; sizes, lengths and trailer are checked as specified. |
| IndexV1.ParseV1Exactly | cacheclient/web_index.go:348-370 | Arbitrary bytes of version 1 parse to some keys if and only if they are a header with that count, entries of 8 or 32 bytes that start with those keys, and the digest of both. |
| AddLog.StepGrows | indexdelta.go:30-39 | Within an epoch a step only appends to the log, and what it appends is what the advertised set gained. |
| AddLog.EpochGrows | indexdelta.go:30-81 | Of two states of one epoch the later log extends the earlier one by exactly what the set gained; an unchanged mutation count means an unchanged log. |
| AddLog.PositionNamesSet | indexdelta.go:30-50 | In every run one position names one advertised set. |
| AddLog.StepKeepsCaches | index.go:593-628 | A cached blob of the next state was built by this step from this state, or was there before; one that is still young had no new epoch since. |
| AddLog.CacheHasSource | index.go:563-628 | In every run a cached blob is the serialization of the set advertised at the position it names, and while it may be served that position is of the current epoch. |
| AddLog.ServedBlobIsTrue | index.go:561-641 | In every run any blob handed out, stale or not, names the current epoch and decodes to exactly the set advertised at the position it names. |
| AddLog.DeltaReaches | indexdelta.go:71-81 | What the set gained since an answered position is exactly the tail of the log. |
| AddLog.DeltaBringsCurrent | indexdelta.go:71-81 | An answered delta joined with any copy right at its start gives exactly the advertised set at its end, on the bits kept. |
| AddLogRuns.ServedIsFresh | index.go:561-628 | In every run a blob handed out is that of the set advertised now, or was built in this epoch by an earlier request for the form that was done less than the interval before. |
| AddLogRuns.BuildsAreSpaced | index.go:217-218 | In every run, two builds of a form with its entry untouched between are at least the interval apart, and a hash was put between them. |
| AddLogRuns.EpochEndsIff | indexdelta.go:30-50 | In every run an epoch ends exactly with a removal of an action key, a rebuild, a restart, or a put on a log at its limit, 2^20 unless another is set. |
| AddLogRuns.LogIsBounded | indexdelta.go:30-39 | In every run the log stays within that limit, and every put of an action key moves the position by its hash. |
| AddLogRuns.DeltaIsAnswered | indexdelta.go:71-81 | In every run an earlier position is answered with a delta exactly until its epoch ends. |
| AddLogRuns.AdvertisedFrom | index.go:246-360 | In every run a hash that is advertised was so at the start, put, or found by a walk, and not taken out since. |
| AddLogRuns.PutIsAdvertised | index.go:246-265 | In every run a hash that was put is advertised until something takes it out, through any rebuild that walked it or that came before any request for a blob. |
| AddLogRuns.RebuildKeepsIff | index.go:708-727 | In every run a rebuild keeps exactly the hashes it walked and those put, and not removed, since the last request that built a blob. |
| ServerIndex.Index.Put | index.go:246-265 | Takes the Put step: the hash is advertised and logged, with a new epoch when the log is full; other keys change no hash. Every key gains an entry with its time, unless tracking is off. |
| ServerIndex.Index.DrainEntries | index.go:278-285 | The buffered entries join the list, which is in order of time; none is lost and none is new. |
| ServerIndex.Index.DisableEntryTracking | index.go:222-228 | No entry is held any more, and a put adds none. |
| ServerIndex.Index.NearbyKeys | index.go:452-472 | Answers over every entry held, buffered or not: the nearest eligible ones, by distance and then time, that the filter lets through. |
| EntryLists.RemoveFirst | index.go:307-312 | The first entry of a key goes; in a list by time that is one of its earliest. |
| EntryLists.FilterEntries | index.go:345-352 | Exactly the entries of other keys stay, as often as they were there, in order of time. |
| ServerIndex.Index.AppendAdd | indexdelta.go:30-39 | The log grows by the hash, after a reset when it is at its limit. |
| ServerIndex.Index.ResetAddLog | indexdelta.go:43-50 | A new epoch, an empty log, one more mutation, and no cached blob counts as young. |
| ServerIndex.Index.Remove | index.go:298-320 | The hash leaves the list and the buffer and the epoch ends; of the key's entries one with the earliest time goes and all else stays. |
| ServerIndex.Index.RemoveKeys | index.go:326-360 | Exactly the action hashes among the keys leave, and every entry of every key given; a call that names no action hash changes no hash. |
| ServerIndex.Index.Contains | index.go:378-395 | True exactly for the hashes the next serialization carries. |
| ServerIndex.Index.MergePending | index.go:632-641 | The list becomes the union, strictly ascending, the buffer empties, and the advertised set is unchanged. |
| ServerIndex.Index.TryServe | index.go:593-603 | The read path answers exactly the blobs that may be served, which `AddLogRuns.ServedIsFresh` says are current or young. |
| ServerIndex.Index.ServeOrBuild | index.go:605-628 | The locked path takes the Serve step: it checks again, and else caches the serialization at the current position. |
| ServerIndex.Index.DeltaForm | indexdelta.go:71-81 | Answers exactly the positions of the current epoch that the log has reached, with the blob of the log's tail. |
| ServerIndex.Index.ApplyRebuild | index.go:713-727 | The walk's hashes and entries replace both lists, in order; both buffers stay, the blobs go and the epoch ends. The counts answered are those of the entries walked and of the hashes listed and buffered. |
| ServerIndex.Index.SetHashBits | index.go:133-138 | The width changes and every cached blob goes. |
| ServerIndex.Index.WireSize | indexdelta.go:155-167 | The exact length of the v2 blob the next request gets, and nothing changes. |
| SortedSet.MergeBack | cacheclient/hashset.go:146-171 | The merge in place from the end writes exactly the merge of slice and additions; nothing is overwritten unread. |
| SortedSet.MergeIsUnion | cacheclient/hashset.go:146-171 | That merge is strictly ascending and holds exactly the elements of both. |
| SortedSet.DeleteFrom | cacheclient/hashset.go:146-171 | Deleting in place keeps exactly the elements that are not victims, in order. |
| SortedSet.HashSet.constructor | cacheclient/hashset.go:40-52 | The set of the keys given, in any order and with repeats. |
| SortedSet.HashSet.Len | cacheclient/hashset.go:59-64 | The number of members. |
| SortedSet.HashSet.Contains | cacheclient/hashset.go:66-78 | Membership, wherever the key sits. |
| SortedSet.HashSet.Add | cacheclient/hashset.go:80-100 | Adds one member, keeps the slice ascending, additions apart from it and deletions within it. |
| SortedSet.HashSet.Remove | cacheclient/hashset.go:102-117 | Removes one member and keeps the same shape. |
| SortedSet.HashSet.All | cacheclient/hashset.go:120-139 | Every member once. |
| SortedSet.HashSet.Fold | cacheclient/hashset.go:146-171 | Compaction empties both buffers and changes no member. |
| KeySet.NarrowKeeps | cacheclient/indexkey.go:114-122 | Narrowing never turns a present hash into an absent one. |
| KeySet.JoinKeeps | cacheclient/indexkey.go:103-110 | A join knows every hash either side knew. |
| KeySet.MaskSlice | cacheclient/indexkey.go:114-122 | Masking a slice in place keeps its order and gives the image of its elements. |
| KeySet.KeySet.Contains | cacheclient/indexkey.go:78-83 | Whether the hash, masked, is a member. |
| KeySet.KeySet.Add | cacheclient/indexkey.go:86-91 | Adds the masked key of the hash. |
| KeySet.KeySet.Remove | cacheclient/indexkey.go:94-99 | Removes the masked key of the hash. |
| KeySet.KeySet.NarrowTo | cacheclient/indexkey.go:114-122 | The members become exactly their image under the narrower mask, each once. |
| KeySet.KeySet.AddAll | cacheclient/indexkey.go:103-110 | The members become the image of the union under the narrower of the two masks. |
| ClientBlobs.KeysOfMasks | cacheclient/web_index.go:319-345 | Whatever bytes a blob is, the keys it gives are clear below its width, and the width is at least 32. |
| ClientBlobs.ViewRoundTrip | cacheclient/web_index.go:373-380 | The blob of a key set parses back to that key set and width. |
| MergeBlobs.MarshalIndex | cacheclient/web_index.go:373-380 | Writes the v2 blob of the set at its width, from its keys in any order. |
| MergeBlobs.MergeIndexBlob | cacheclient/web_index_delta.go:168-175 | The blob of copy and delta joined at the narrower width, or the parse error of the copy. |
| IndexClient.ClaimCarries | cacheclient/web_index_load.go:48-54 | A claim loses nothing a set carried. |
| IndexClient.DropCarries | cacheclient/web_index_load.go:57-63 | A drop loses only keys that the dropped hash stands for. |
| IndexClient.JoinCarries | cacheclient/web_index_delta.go:217-250 | Joining a delta into a set that carries a copy carries the copy joined with the delta, also when it narrows. |
| IndexClient.ReplayCarries | cacheclient/web_index_load.go:146-169 | A new set with the journal replayed carries itself, but for hashes that were dropped. |
| IndexClient.ClaimWithin | cacheclient/web_index_load.go:48-54 | A claim adds only the key of its hash. |
| IndexClient.JoinWithin | cacheclient/web_index_delta.go:217-250 | Joining a delta adds only keys of the delta, also when it narrows. |
| IndexClient.ReplayWithin | cacheclient/web_index_load.go:146-169 | A replay adds to the new set only keys of hashes that were claimed. |
| IndexClient.AdoptCoherent | cacheclient/web_index_load.go:146-169 | Adopting a load ends the journal and leaves a coherent client. |
| LiveIndex.LiveIndex.AddKey | cacheclient/web_index_load.go:48-54 | The live set and the journal change as a claim. |
| LiveIndex.LiveIndex.DropKey | cacheclient/web_index_load.go:57-63 | The live set and the journal change as a drop. |
| LiveIndex.LiveIndex.Start | cacheclient/web_index_load.go:71-99 | The copy is installed: trusted at once when it is young and names no position, else with a journal. |
| LiveIndex.LiveIndex.InstallDelta | cacheclient/web_index_delta.go:235-242 | Set, journal, position and flag change together. |
| LiveIndex.LiveIndex.Arrive | cacheclient/web_index_delta.go:89-93 | A confirmed load sets the position before it is adopted. |
| LiveIndex.LiveIndex.AdoptIndex | cacheclient/web_index_load.go:146-169 | Nothing, the very set that is live, or another set with all claims and then all drops replayed, in any order of the journal. |
| LiveIndex.LiveIndex.LiveDelta | cacheclient/web_index_delta.go:130-133 | The delta joins the live set and the position moves with it. |
| LiveIndex.LiveIndex.Absent | cacheclient/web.go:524-526 | A lookup may miss unasked exactly when the set is authoritative and lacks the hash. |
| JournalReplay.JournalIs | cacheclient/web_index_load.go:48-63 | After any claims and drops during a load the live set is the copy with them played in order, and the journal holds each hash by its last event. |
| JournalReplay.ReplayIsInOrderIff | cacheclient/web_index_load.go:146-169 | Replaying the journal on a new set does what the events did in their order if and only if no dropped hash shares its kept prefix with a hash claimed after it. |
| JournalReplay.ClaimIsLost | cacheclient/web_index_load.go:160-165 | For any two hashes with one kept prefix, a claim of one after a drop of the other is lost in the replay. |
| IndexSystem.ReplyIsTrue | cacheclient/web_index.go:119-156 | A whole index in any reply of the run is what the server advertised at the position it names. |
| IndexSystem.DeltaIsTrue | cacheclient/web_index_delta.go:217-250 | A delta joined to a true copy at its start is a true copy at its end; an empty one moves the copy as it is. |
| IndexSystem.ReadIsTrue | cacheclient/web_index_delta.go:68-83 | A position read for a copy is a position of that copy, whichever process wrote either file. |
| IndexRuns.NotModifiedKeeps | cacheclient/web_index.go:119-135 | A 304 gives the copy the position the server named, and the copy is true there. |
| IndexRuns.FullReplyKeeps | cacheclient/web_index.go:136-156 | A full fetch installs a true set and leaves true writes. |
| IndexRuns.PersistIsTrue | cacheclient/web_index_delta.go:142-164 | What a delta leaves to write, in each of its three sizes, is true once written, in whatever order and number the writes succeed. |
| IndexRuns.ActionKeeps | cacheclient/web_index_load.go:71-208 | Every action of a process keeps its set, its reads and its pending writes true. |
| IndexRuns.RunKeeps | cacheclient/web_index_load.go:71-208 | In every reachable state the disk and every process are true. |
| IndexRuns.DiskNeverLies | cacheclient/web_index_delta.go:49-83 | In every reachable state, a copy on disk that reads as being at a position holds exactly the keys the server advertised there. |
| IndexRuns.CopyReadIsTrue | cacheclient/web_index.go:177-195 | So does a copy and a record that one process read with other processes' writes in between. |
| IndexRuns.MissIsSound | cacheclient/web.go:461-507 | In every reachable state, each hash advertised at the live position of a loaded client is in its set, or shares its kept prefix with a hash this client dropped. |
| IndexTrust.AuthoritativeIff | cacheclient/web_index.go:88-156 | In every run a set is authoritative exactly when its load is over and, since the process started, it was sent or confirmed by the server, fetched by another process, or a young copy that the server could not be asked about. |
| IndexTrust.FailedLoadProbes | cacheclient/web_index.go:104-118 | In every run a load that failed or was cancelled leaves its process unauthoritative until it starts over. |
| IndexGround.AuthoritativeIsWhole | cacheclient/web_index_delta.go:113-118 | In every run an authoritative set is, but for claims and drops, that of a blob of the run or one the server advertised, also after the server took its position back. |
| IndexMoves.PositionIs | cacheclient/web_index_delta.go:88-93 | In every run a client's position is the last one that a reply or another process's refresh named, and none after the server said it is gone. |
| IndexMoves.UnaskedMissIsSound | cacheclient/web.go:485-498 | In every run a lookup that misses unasked does so on a trusted set, and the server did not advertise the hash at the last position named, but for drops. |
| IndexMoves.ClaimIsHeld | cacheclient/web_index_load.go:48-54 | In every run a claim is held, through loads, deltas and adoption, until its hash is dropped, unless another hash the client dropped has its kept prefix. |
| IndexMoves.DropIsGone | cacheclient/web_index_load.go:57-63 | In every run a dropped hash is gone, through loads and adoption, until a delta or a claim with its kept prefix. |
| IndexMoves.LiveDeltaCatchesUp | cacheclient/web_index_delta.go:99-135 | From any state of any run, an authoritative client at a position of the current epoch can ask, and the answer brings it to the server's position. |
| IndexRestart.PersistReads | cacheclient/web_index_delta.go:142-164 | An empty delta moves the position of the copy, one of 16384 keys or more makes a new copy that reads as the join at its position, and any other leaves the disk as it was. |
| IndexRestart.RestartCatchesUp | cacheclient/web_index_delta.go:194-250 | From any state of any run, a new process over a copy at a position of the current epoch becomes authoritative at the server's position with one delta, and the disk then reads as PersistReads says. |
| IndexRuns.HitIsSound | cacheclient/web.go:558-565 | In every reachable state, each key of a loaded client with a position is that of a hash advertised at the position, or of a hash this client claimed. |
| IndexRuns.FirstLoad | cacheclient/web_index.go:99-156 | Such runs exist: on any server with a position, a first load ends authoritative with exactly the server's keys at the server's position, and the disk then reads as that copy at that position. |
| Admission.SlotQueue.TryTake | admit.go:30-38 | Takes a slot exactly when one is free. |
| Admission.SlotQueue.Enter | admit.go:48-65 | Takes a free slot, refuses at the queue limit, or joins the end of the line of its class. |
| Admission.SlotQueue.Leave | admit.go:75-86 | A wait that ended keeps a grant that raced it, hands it on if the client is gone, or leaves the line. |
| Admission.SlotQueue.Release | admit.go:96-106 | A slot goes to the front of the demand line, else of the look-ahead line, else to the free count. |
| Admission.StepKeeps | admit.go:30-106 | Every step of every request, in any order, keeps the lines, the counts and the grants consistent. |
| Admission.SlotsConserved | admit.go:30-106 | In every run free slots and slots out add up to the slots there are, nobody waits while one is free, and the lines keep their bound. |
| Admission.OneSlotEach | server.go:134-163 | In every run a finished request gave back exactly one slot, a holder none yet, and a refused one holds none; a grant is given up only by a client that went away. |
| Admission.EarliestFirst | admit.go:89-106 | In every run a slot given back goes to the demand waiter that joined first, and to a look-ahead waiter only when none of those waits. |
| AdmissionRuns.RefusedIff | admit.go:48-86 | In every run a request is refused exactly when it finds no slot free and as many waiting as may, or when its own wait ended with no slot for it, or with one and its client gone. |
| AdmissionRuns.AdmittedIff | admit.go:30-86 | In every run a request gets a slot exactly when it tries while one is free, or looks after it was granted one, with its client still there if its wait had ended. |
| AdmissionRuns.GrantIsEarliest | admit.go:89-106 | In every run a slot given up while somebody waits is granted to the demand waiter that joined first, and to the first look-ahead waiter if none of those waits. |
| AdmissionRuns.NoOtherGrant | admit.go:89-106 | In every run no other step grants a slot. |
| Fallback.ManifestFallback.NoteLanded | cacheclient/manifest_fallback.go:103-118 | Counts each entry brought once, and judges when the sample is due. |
| Fallback.ManifestFallback.NoteLookup | cacheclient/manifest_fallback.go:121-135 | Counts a lookup and a use, and judges while paused. |
| Fallback.ManifestFallback.JudgeLocked | cacheclient/manifest_fallback.go:138-152 | Decides as the four laws of FallbackRuns say, and signals exactly when it decides. |
| FallbackRuns.StopsOnlyUnused | cacheclient/manifest_fallback.go:138-152 | In every run the fetch is stopped only when less than a fifth of what it brought was used and the build made, since the pause began, half as many lookups as entries were brought; and for good. |
| FallbackRuns.GoesOnIff | cacheclient/manifest_fallback.go:138-144 | In every run the next sample doubles exactly when a pause is judged, or a sample falls due, with a fifth used; it starts at 256 and changes in no other way. |
| FallbackRuns.PausesIff | cacheclient/manifest_fallback.go:113-117 | In every run a pause begins exactly when a sample falls due with less than a fifth used. |
| FallbackRuns.PauseLasts | cacheclient/manifest_fallback.go:138-147 | In every run a pause lasts exactly while too little is used and the lookups since it began are too few. |
| FallbackRuns.BroughtIff | cacheclient/manifest_fallback.go:103-135 | In every run what counts as brought is what landed and no lookup used since. |
| FallbackRuns.UsedIff | cacheclient/manifest_fallback.go:121-135 | In every run a use is a lookup that was answered locally, of an id that landed and was not used since; and an entry is counted as fetched once until it is used. |
| FallbackRuns.SendsInTurn | cacheclient/manifest_fallback.go:156-177 | In every run keys are sent only while no pause is on, before a stop and below the next sample, at most 128 at a time; and a turn that is due is taken. |
| Fallback.ManifestFallback.MyTurn | cacheclient/manifest_fallback.go:158-168 | Go, stop or wait, from the counts at that moment. |
| Fallback.StepKeeps | cacheclient/manifest_fallback.go:97-177 | Every step, in any order, keeps the counts, the verdict, the flow and the wakeups consistent. |
| Fallback.FetchIsBounded | cacheclient/manifest_fallback.go:260-296 | In every run what was fetched is what was used and what is unused, no more landed than was sent, and sending stays within a batch of the next verdict. |
| Fallback.NeverStuck | cacheclient/manifest_fallback.go:156-177 | In every run a dispatcher on an open channel really has to wait, and unless it was cancelled a request is in flight or a pause is on that fewer than (fetched + 1) / 2 lookups have passed over. |
| Fallback.LookupsDecide | cacheclient/manifest_fallback.go:138-152 | Every pause is decided and signalled within the lookups it has left, whatever they look up. |
| Fallback.QuietWaitEnds | cacheclient/manifest_fallback.go:138-177 | In every run a dispatcher that waits with nothing in flight, and was not cancelled, is woken by the lookups its pause has left. |
| Fallback.NewestGen | cacheclient/manifest_fallback.go:44-73 | Doubling and halving finds a known generation with no known one after it, and with generations added in order the newest. |
| NearbyScan.FirstAtLeast | index.go:494-499 | The first position whose time is not before a given one. |
| NearbyScan.TakeNearer | index.go:525-537 | One step of the walk takes the entry that comes next by distance and then time, from either side, and stays between its bounds. |
| NearbyScan.PassLeft | index.go:525-537 | Passing the left entry keeps what was seen before what is left, by distance and then time. |
| NearbyScan.Outward | index.go:521-558 | The walk sees the nearest eligible entries in order, of equally near ones the earlier first, asks the filter about each once and about no more than eight times the limit. |
| NearbyScan.NearbyKeys | index.go:488-559 | Without a filter, min(limit, eligible) entries by distance from the middle of the window and then time, with none left out that comes before one taken; with one, those of the nearest that it lets through. |
| Eviction.LastUsed | atime.go:56-67 | The largest of the write, the file system's access time and the recorded access. |
| Eviction.BytesConserved | eviction.go:235-288 | What stays and what goes make up what was there. |
| Eviction.BucketEdge | eviction.go:209-230 | The buckets up to one hold exactly the bytes last used before its upper edge. |
| Eviction.Scan | eviction.go:186-207 | Counts and total, and a histogram that has for each bucket its bytes. |
| Eviction.SizeCutoff | eviction.go:209-230 | The upper edge of a bucket such that what is below it is enough to get within the limit, and what is below the bucket is not. |
| Sweep.Storage.EvictOne | eviction.go:297-324 | A deletion follows a look that found the file as the walk saw it, whatever others do between any two steps. On a quiet store it removes exactly a file that is still so, and spares one written again since. |
| Sweep.Storage.Flush | eviction.go:244-267 | A batch leaves the index before any of its files goes, only its files go, and each that goes is counted once; on a quiet store all that are as seen. |
| Sweep.Storage.SweepBelow | eviction.go:241-288 | Whatever others do, in whatever batches, only objects that the walk saw last used before the cutoff go, each after it left the index, each counted once. On a quiet store all of those go, from the files and from the index. |
| Eviction.OldIff | eviction.go:153-156 | An object is before the cutoff by age exactly when it was last used longer ago than the limit, to the nanosecond, and exactly then it counts as evicted by age. |
| Sweep.Storage.Evict | eviction.go:143-179 | Whatever others do, what goes was past the age limit or before a size cutoff that is enough and no higher than needed, is counted by which, and goes as a sweep lets it. On a quiet store exactly the objects within the age limit and not before the size cutoff stay, they fit the size limit, those too old are the ones counted by age, freed and kept bytes are those there were, and the index is rebuilt exactly when something went, without any victim. |
| Sweep.Storage.Rebuild | eviction.go:169-176 | The list becomes the action keys among the files as walked; the buffer stays. |
| LruCache.CutIsLongest | lrucache.go:111-121 | A cut keeps the longest run of the latest entries that fits, and at least one. |
| LruCache.Trim | lrucache.go:111-121 | The loop makes that cut and counts what it evicts. |
| LruCache.LruCache.Get | lrucache.go:70-83 | Answers what is stored; on a hit the entry is in front and the others keep their order, and on a miss nothing changes. |
| LruCache.PerShardIs | lrucache.go:60-67 | The parts make up the budget but for less than a byte a shard, and are at least a byte. |
| LruCache.WithinAllowed | lrucache.go:109-121 | Shards that fit their parts are together within the budget, but for shards down to one entry. |
| LruCache.LruCache.PutLocked | lrucache.go:92-107 | Under the lock, with any budget read before: the key is in front with its new value, so a Get of it hits; behind it stays the longest run that fits that budget; other shards are unchanged and the counters follow. |
| LruCache.LruCache.Put | lrucache.go:87-107 | Uninterrupted, the same with the current budget; if all shards fitted, all still do. |
| LruCache.LruCache.EvictLocked | lrucache.go:111-121 | One shard is cut to its longest fitting run, and all counters follow, also that of evictions. |
| LruCache.LruCache.Forget | lrucache.go:124-135 | Exactly that key is gone. |
| LruCache.LruCache.StoreBudget | lrucache.go:139-144 | The budget is what was given, or zero; nothing stored changes. |
| LruCache.LruCache.SetBudget | lrucache.go:139-151 | Uninterrupted, every shard fits its part of the new budget or is down to one entry, keeping its longest fitting run, and all of them together are within it but for those. |
| LruCache.LruCache.ClearShard | lrucache.go:155-163 | One shard is empty, and the count of bytes is lower by what it held. |
| LruCache.LruCache.Clear | lrucache.go:154-164 | Nothing is stored and no byte is counted. |
| LruCache.SumWithout | lrucache.go:124-135 | Taking an entry out lowers the sum of sizes by its size. |
| LruRuns.StepKeeps | lrucache.go:70-164 | Every step of every call, in any order, keeps list, index and both counters of every shard in agreement and every shard within the budgets that its log of cuts says. |
| LruRuns.FitsWhatWasRead | lrucache.go:87-151 | In every run of interleaved calls, every shard fits the budget that the last call to cut it had read, or holds one entry; and all counters agree. |
| LruRuns.FitsUnlessOver | lrucache.go:87-151 | In every run a shard fits any budget unless a Put, not the first since the last Clear, cut it with a larger one and nothing cut it to that budget or less since. |
| LruUses.ListedByUse | lrucache.go:70-107 | In every run of interleaved calls every shard's list is in strictly descending order of the last Get or Put of its keys. |
| LruUses.EvictsOldest | lrucache.go:109-121 | In every run what a Put or a SetBudget evicts was last used before all that it leaves in the shard. |
| LruUses.CutsAreRead | lrucache.go:60-67 | In every run the budget a shard is cut to is its part of the budget that was stored last when the call read it. |
| LruOrders.OverLeavesMore | lrucache.go:87-121 | Any order of reads, stores and locks with such a Put has contents that leave the shard over. |
| LruOrders.FitsIff | lrucache.go:87-151 | An order of reads, stores and locks leaves a shard within the current budget, whatever is stored, if and only if it has no such Put. |
| LruOrders.FitsAtRestIff | lrucache.go:87-151 | With no call under way, all shards fit the current budget, whatever is stored, if and only if none has such a Put. |
| LruOrders.PromptFitsAtRest | lrucache.go:87-151 | If every Put locks before the budget it read is replaced, then with no call under way every shard fits the current budget. |
| LruOrders.StraddlingPut | lrucache.go:90-105 | A run at rest in which a shard of two entries is over the budget, because a Put read it before a SetBudget and locked after it. |
| ObjAttrs.UvarintRoundTrip | storage_unix.go:63-70 | A varint reads back, whatever follows it. |
| ObjAttrs.RoundTrip | storage_unix.go:52-120 | Decoding inverts encoding for every pair of string maps; the pair-count guard refuses no encoding. |
| AttrBytes.PrefixFree | storage_unix.go:89-120 | No accepted value is the start of another, so one that is cut or added to is refused; and its version is 1. |
| AttrBytes.PairsReadBack | storage_unix.go:72-87 | Any pairs, in any order and with repeats, read back as what the last pair of each key says, with what follows left. |
| AttrBytes.WordFits | storage_unix.go:63-70 | A number that is read fits a word. |
| ObjAttrs.OrderIsUnique | storage_unix.go:35-48 | Sorted keys have one order, so an encoding depends only on the maps. |
| ObjAttrs.SortedKeys | storage_unix.go:35-48 | The keys of a map, each once, in byte order. |
| ObjAttrs.AppendKV | storage_unix.go:35-48 | Appends the pairs in the order of their keys. |
| ObjAttrs.EncodeObjAttrs | storage_unix.go:52-59 | Version, both counts, and both maps' pairs in order. |
| ObjAttrs.DecodePairs | storage_unix.go:72-87 | The loop equals the specification: a later pair of a key replaces an earlier one, and a short buffer is refused. |
| AttrWriter.EmptyKeyHides | storage_unix.go:155-163 | An input on which the search finds nothing to drop although there is an optional key. |
| AttrWriter.FindsLongestIff | storage_unix.go:155-163 | Every iteration order finds a longest droppable key if and only if the empty key is absent, no longer than some droppable one, or there is nothing to drop. |
| AttrWriter.FindLongest | storage_unix.go:155-160 | The search over the map in any order. |
| AttrWriter.DropsAllIff | storage_unix.go:154-167 | Every run that gives up has dropped all it may, whatever the orders, if and only if no droppable value is shorter than that of the empty key. |
| AttrWriter.LongestFirstIff | storage_unix.go:154-167 | Every run drops the longest first, whatever the orders, if and only if the droppable values shorter than that of the empty key are all as long. |
| AttrWriter.RunTrims | storage_unix.go:154-167 | At every point of every run no kept value has changed and no protected or empty key is gone; under the condition of LongestFirstIff no droppable value kept is longer than one that went. |
| AttrWriter.DropUntilFits | storage_unix.go:154-167 | The loop makes such a run, for any setter and any orders, and ends when the setter takes the value or the search finds nothing. |
| AttrWriter.WriteObjAttrs | storage_unix.go:136-173 | For any setter it ends, with the outcome of the encoding it sent last; it never drops a protected key, drops audit fields before metadata and nothing unless the first attempt found no space, and its drops are a run, so what the two conditions above say holds of it. |
| Lz4Head.LiteralsFirst | lz4head.go:77-103 | The first literals of a block are the first bytes it decodes to. |
| Lz4Head.LeadingIsPrefix | lz4head.go:30-104 | Whatever part of a frame the head is, the bytes answered are the first bytes of what the frame decodes to, and no more than were wanted. |
| Lz4Head.LeadingBytes | lz4head.go:30-104 | The cursor loop answers exactly the specified bytes. |
| Lz4Head.ReadExtended | lz4head.go:80-92 | The loop over length bytes adds them up to and including the first that is not 255. |
| Lz4Head.HasPrefix | lz4head.go:110-122 | The verdict, and whether it is one. |
| Lz4Head.VerdictIsTrue | lz4head.go:110-122 | Every decided verdict is the one that decoding the frame gives. |
| Lz4Shown.StoredIsShown | lz4head.go:30-76 | Of a frame with a stored first block, cut anywhere, exactly the bytes of the block that are left are answered, up to those wanted. |
| Lz4Shown.LiteralsAreShown | lz4head.go:77-104 | Of a frame with a compressed first block, cut anywhere, exactly the first literals that are left are answered, up to those wanted. |
| Lz4Shown.ShownIsDecided | lz4head.go:110-122 | With as many bytes answered as are wanted the verdict is given; with fewer, exactly when they differ. |

## Left out

- HTTP handlers, tar streaming, retries, TLS, metrics, logging, configuration and the dashboard: input and output, and display.
- The `widthSet` of `cacheclient/hashset.go`: a second key set with the same operations as `KeySet`.
- Equality of index and store after a rebuild: a put merged out of the buffer during the walk is overwritten, so it does not hold; `AddLogRuns.RebuildKeepsIff` says what a rebuild keeps.
- `indexEmpty` and the other counters the client only reports.
- Which of several waiters on one position asks for a live delta, and the least time between two: any process may ask at any time.
- AddLog.StepGrows: the mutation counter is unbounded; in the source it wraps at 2^64.
- AddLogRuns.ServedIsFresh: the interval and the log limit are fixed for the run.
- ServerIndex.Index.WireSize: for fewer than 2^57 hashes, so that the count of bits fits a word.
- IndexV2Codec.Gbci2Size: for fewer than 2^57 values, for the same reason.
- IndexV2Codec.WriteAndRead: for fewer than 2^57 values, for the same reason.
- IndexV2Codec.ParseIndexV2: for blobs below 2^61 bytes, so that bit counts fit a word.
- NearbyScan.NearbyKeys: times are unbounded integers; the sum of the window's ends does not wrap.
- Fallback.FetchIsBounded: counts are unbounded integers, and the handing of a part to a worker is one step.
- Sweep.Storage.Evict: a recorded access is not before 1970; the pruning of access records, side files and errors of the walk are not modelled.
- LruRuns.StepKeeps: sizes are not negative, and the atomic adds to the total happen with their locked section.
- LruOrders.FitsIff: stated for natural-number keys, each in the shard of its remainder; the half that says they fit holds for all keys (`LruRuns.FitsUnlessOver`).
- ObjAttrs.RoundTrip: lengths and counts are below 2^64, as in memory.
- Lz4Head.LeadingIsPrefix: a frame with a dictionary is outside the decoder, and the shortcut refuses it.
- File locks, directory listing and extended attributes as system calls, and the Windows storage.
