# Hash tables, a job protocol and five small machines, verified

A Dafny model of the algorithms the benchmarks and examples of this repository
are built on, and proofs of what they promise. `dafny verify dfyconfig.toml`
checks everything.

## What is modelled

**The hash-table family** (`Words`, `Probing`, `InsertionOrder`, `LoadPolicy`,
`OrderedTable`, `Packing`, `BackwardShift`, and one class per layout:
`PlainMap`, `Fp64Map`, `Fp32Map`, `UnorderedMap`, `StringMap`). The classes
have the source's fields and loops, on arrays changed in place. A ghost value
beside the fields says which buckets they spell; one theory of cyclic probing
serves all five, and one specification, an insertion-ordered finite map, is
what four of them refine. The fifth, unordered, refines the finite map alone,
by the backward-shift argument. `Runs`, `RunLoads`, `Layouts`, `StringRuns` and
`Workload` go from single operations to whole runs: every layout shows the same
values, count and sum, rebuilding is amortised, space follows the peak, runs
that panic are told apart exactly from runs that do not, and the churn workload
prints the numbers it should.

**The job protocol** (`JobProtocol`, `JobAnswers`, `JobEnd`) of
`examples/prefork-jobs.ts`: one owner, four windowed clients, a shared job ring
and an answer ring each, as a transition system in which scheduling, refused
pushes and timeouts are free: what is in flight, what every answer says, what
the counters hold, and how a run ends.

**The concurrent histogram** (`Histogram`): local tallies, atomic adds and a
lock, under every interleaving of their reads and writes.

**The byte scanner** (`JsonScan`, `JsonPrint`), **the linear route table**
(`Router`), **the batch scheduler** (`Scheduler`, `SchedulerBounds`) and **the request assembler**
(`Assembler`). Each imperative loop is proved equal to a function of values,
and the properties are proved of that function.

## What does not hold as one might expect

- Packing an index at or above 2^24 - 1 loses it: `CapIsReal` says for which
  indices unpacking undoes packing, and these are the ones the cap lets in.
- The layouts without a cap panic on a signed overflow when a new key finds a
  table of 2^30 buckets, and only then (`OverflowBound`, and the `Panicked`
  clauses of the classes). A run of different keys gets there (`FillPanics`).
  Which runs pass is said exactly (`Passes`), and that they do for as long as
  the number of live keys stays below a bound (`PassesBelow`).
- The scheduler's loop does not end when, after the arrivals, a batch in flight
  ends later than `end + SECONDS * MILLION`: from then on the next event stays
  at that time. `EndsUnlessLate` is the exact condition on a run. `Overloaded`
  and `Stalls` show from rates and service times that it is met, the latter with
  figures the program's formulas give at about 30300 requests a second;
  `EndsIfDrained` and `EndsIfSparse` show when it is not.
- With more than `QUEUE` requests waiting the arrival ring overwrites its oldest
  entries, and some waits are counted too short, exactly when a batch starts in
  that state (`LaunchedExact`; `Overfills` is an instance). The model leaves it
  at that because its clock only answers. The real clock keeps a queue of its own
  of the same size: it ignores arrivals beyond that and panics once a batch takes
  more than it holds (std/net/postgres.ts:4721-4806).
- The branch of the scheduler that sets the next event to now is never taken
  (`NextTimeMeans`).
- In a route pattern whatever follows a `*` segment is stored but ignored by a
  match; `MatchMeans` holds for such patterns too, since a filled route ends at
  its wildcard.

## Conventions

Integers are unbounded; wrapping `u32` arithmetic is written with `ToU32`, and
the checked `i32` arithmetic of the language (docs/LANGUAGE.md, the table of
integer operations) as `IsI32` tests whose failure is the outcome `Panicked`.
Bit operations are defined bit by bit in `Words`. Keys are any type with
equality and hashes any function to `u32`, not 0 where the source ensures that.
Some methods of a class are a loop or a group of writes that the source has
inline; they are named after what they do. The scheduler's local variables are
the fields of `Simulation`, so that its loop can be cut into methods, and what
the clock answers, how long a batch of each size takes and when the next request arrives are
given to each turn as `Draws`.

## Model

| member | source | states |
|---|---|---|
| `Words.AndMask` | bench/map-proto-unordered.ts:37 | `x & mask` with `mask` one less than a power of two is `x` modulo the table size, for negative `x` too, so `home`, the next bucket and the distances of `delete` are cyclic arithmetic |
| `Words.XorBits` | examples/histogram-atomic.ts:58-60 | a bit of `x ^ y` is set exactly when the bits of `x` and `y` differ |
| `Words.ShiftLeftBits` | examples/histogram-atomic.ts:58-60 | bit k of `x << n` in a word is bit k - n of `x`, and the low n bits are clear |
| `Words.ShiftRightBits` | examples/histogram-atomic.ts:59-61 | bit k of `x >>> n` is bit k + n of `x` |
| `Probing.MaskNext` | bench/map-proto-unordered.ts:73 | `(b + 1) & mask` is the next bucket, the first after the last |
| `Probing.MaskDist` | bench/map-proto-unordered.ts:140 | `(b - a) & mask` is the number of steps from bucket `a` on to `b`, also when `b < a` |
| `Probing.HomeBits` | bench/map-proto-ordered-fp32.ts:44 | in a table of 2^k buckets bit j of a hash's home is bit j of the hash flipped by bit j + 16 |
| `Probing.SeekFinds` | bench/map-proto-unordered.ts:59-76 | when every key is reachable from its home and one bucket is empty, a probe stops: at the key if it is stored, else at the first empty bucket of its path, and then the key is stored nowhere; it never runs around the table |
| `Probing.SeekHits` | bench/map-proto-unordered.ts:59-76 | each stored key is found in its own bucket, so no key has two |
| `Probing.NotAllTaken` | bench/map-proto-ordered.ts:122-125 | counting: fewer taken buckets than buckets leaves an empty one |
| `Probing.TakenUpdate` | bench/map-proto-ordered.ts:119-121 | one write changes the number of taken buckets by exactly what it fills or empties |
| `Probing.FileKeeps` | bench/map-proto-unordered.ts:108-118 | filing an absent key where its probe stopped keeps every key reachable and takes one bucket more |
| `Probing.BuryKeeps` | bench/map-proto-ordered.ts:133-135 | a tombstone keeps every other key reachable, makes the deleted one absent, and leaves its bucket taken |
| `InsertionOrder.PutLaws` | bench/map-proto-ordered.ts:101-110 | the ordered map after a set: keys stay distinct, the key reads as the new value and every other key as before |
| `InsertionOrder.RemoveLaws` | bench/map-proto-ordered.ts:128-139 | the ordered map after a delete: keys stay distinct, the key is gone and every other key reads as before |
| `InsertionOrder.BumpLaws` | bench/map-proto-ordered.ts:89-98 | the ordered map after an add: keys stay distinct, a key that is there reads as its value plus the amount, a new one as the amount, and every other key as before |
| `InsertionOrder.OrderLaws` | bench/map-proto-ordered.ts:112-126 | a deleted and re-inserted key goes to the end; overwriting keeps every key in its place |
| `InsertionOrder.PositionStable` | bench/map-vs-stringmap.ts:182-186 | writing any key leaves the position of a present key alone |
| `InsertionOrder.PositionForEver` | bench/map-vs-stringmap.ts:182-186 | whatever is written later, an index once returned for a key stays that key's index |
| `InsertionOrder.AsMapPut` | bench/map-proto-ordered.ts:101-110 | the finite map an ordered map stands for, after a set |
| `InsertionOrder.AsMapRemove` | bench/map-proto-ordered.ts:128-139 | the finite map an ordered map stands for, after a delete |
| `InsertionOrder.TotalOrderFree` | bench/map-proto-unordered.ts:191-200 | two orders of the same finite map have the same sum, so a walk in bucket order prints what a walk in insertion order does |
| `InsertionOrder.PairsOverwrite` | bench/map-proto-ordered.ts:101-108 | writing a live entry's value changes exactly that entry of the map the arrays spell |
| `InsertionOrder.PairsBury` | bench/map-proto-ordered.ts:136 | clearing an `alive` flag removes exactly that entry and keeps the others in order |
| `InsertionOrder.PairsFind` | bench/map-proto-ordered.ts:43-49 | a live entry's position in the map is the number of live entries before it |
| `InsertionOrder.CompactStep` | bench/map-proto-ordered.ts:149-157 | one turn of the in-place compaction: the front holds the live entries seen so far in order, the rest is untouched |
| `OrderedTable.UsableProbe` | bench/map-proto-ordered.ts:61-82 | a probe of a table in use ends at the live entry of the key or at an empty bucket, and then the map has no such key; the panic after the loop is unreachable, and dead entries are never answered |
| `OrderedTable.IndexedUnique` | bench/map-proto-ordered.ts:46-49 | the live keys of a table are distinct |
| `OrderedTable.FiledPush` | bench/map-proto-ordered.ts:114-121 | the bucket table keeps pointing at exactly the live entries when one is appended |
| `OrderedTable.FiledBury` | bench/map-proto-ordered.ts:133-136 | and when one is buried; every bucket taken stays the bucket of one entry appended since the last rebuild |
| `OrderedTable.OverwrittenMeans` | bench/map-proto-ordered.ts:101-108 | overwriting a found entry is `Put` of the ordered map |
| `OrderedTable.PushedMeans` | bench/map-proto-ordered.ts:113-121 | appending at the bucket a miss returned is `Put` of the ordered map: the key goes to the end |
| `OrderedTable.PushedFits` | bench/map-proto-ordered.ts:117-125 | after an append, taken buckets equal entries appended since the last rebuild, and either the table is at most three quarters taken or the rebuild that is due restores that |
| `OrderedTable.BuriedMeans` | bench/map-proto-ordered.ts:128-139 | burying the found entry is `Remove` of the ordered map, and the table stays in use |
| `OrderedTable.RefileStep` | bench/map-proto-ordered.ts:175-183 | one turn of the refiling loop: the entries filed so far are reachable, each by one bucket |
| `OrderedTable.RebuildRoom` | bench/map-proto-ordered.ts:146-148 | the size chosen by a rebuild is a power of two with room for every live entry |
| `OrderedTable.RebuiltMeans` | bench/map-proto-ordered.ts:146-184 | a rebuilt table means the same ordered map, contents and order, with no dead entry left |
| `LoadPolicy.PaidInsert` | bench/map-proto-ordered.ts:113-126 | the potential that pays for the next rebuild survives every insertion |
| `LoadPolicy.InsertExactly` | bench/map-proto-ordered.ts:113-148 | a new key rebuilds exactly when more than three quarters of the buckets would be taken; the rebuild scans every entry, drops the dead ones, and doubles exactly when at most half were dead |
| `LoadPolicy.SoundRun` | bench/map-proto-ordered.ts:112-184 | every state of every run: a power-of-two size, at most three quarters taken, rebuilds paid for, size bounded by the peak |
| `LoadPolicy.RebuildsAmortised` | bench/map-proto-ordered.ts:123-125 | over any run the entries scanned by all rebuilds are at most three times the new-key insertions |
| `LoadPolicy.SpaceFollowsPeak` | bench/map-proto-ordered.ts:141-148 | in every state 3 * slots <= max(24, 16 * the largest live count so far), however long the run |
| `LoadPolicy.NeverFull` | bench/map-proto-ordered.ts:122-125 | between operations at most three quarters of the buckets are taken |
| `LoadPolicy.OverflowBound` | bench/map-proto-ordered.ts:113-148 | without a cap the `i32` products of an insertion fit if and only if the table has fewer than 2^30 buckets |
| `LoadPolicy.TopReached` | bench/map-proto-ordered.ts:113-148 | the size at which an insertion overflows is reached by a run without deletions |
| `LoadPolicy.CapBound` | bench/map-proto-ordered-fp32.ts:132-172 | with the 24-bit cap no run takes the table past 2^25 buckets, and no `i32` product of an insertion or rebuild overflows |
| `LoadPolicy.DoublingBound` | bench/map-vs-stringmap.ts:168-190 | the same for the table that only doubles |
| `Words.OrDisjoint` | bench/map-vs-stringmap.ts:64 | the bitwise or of fields that do not overlap is their sum |
| `Packing.PackUnpack32` | bench/map-proto-ordered-fp32.ts:46 | for indices below the cap the fingerprint and the index come back, and the word is neither the empty one nor the tombstone |
| `Packing.Fingerprint` | bench/map-proto-ordered-fp32.ts:46 | the fingerprint f of a hash h is its top byte: 2^24 f <= h < 2^24 (f + 1) |
| `Packing.CapIsReal` | bench/map-vs-stringmap.ts:50-67 | for every index from 0 on, unpacking gives the index back if and only if it is below 2^24 - 1 |
| `Packing.FingerprintExact32` | bench/map-proto-ordered-fp32.ts:73-99 | a bucket's word passes the fingerprint, stored-hash and key tests exactly when the bucket holds a live entry of that key: fingerprints skip compares and nothing else, and a deleted bucket never matches |
| `Packing.WordEmpty32` | bench/map-proto-ordered-fp32.ts:79-81 | a word is 0 exactly for an empty bucket |
| `Packing.PackUnpack64` | bench/map-proto-ordered-fp.ts:41 | the hash and the index come back from an `i64` slot, the sign bit included; with a hash that is not 0 it is not the tombstone |
| `Packing.FingerprintExact64` | bench/map-proto-ordered-fp.ts:67-86 | the same exactness for the `i64` probe, for a hash that is not 0 |
| `PlainMap.PlainMap.constructor` | bench/map-proto-ordered.ts:54-59 | an empty table of 8 buckets means the empty map |
| `PlainMap.PlainMap.Probe` | bench/map-proto-ordered.ts:66-82 | the loop over the words answers what the search over the buckets does: the entry's index, its bucket in `found`, or the empty bucket as a negative number; it ends, without the panic |
| `PlainMap.PlainMap.Get` | bench/map-proto-ordered.ts:84-87 | the ordered map's value, or `missing`; the map is unchanged |
| `PlainMap.PlainMap.Set` | bench/map-proto-ordered.ts:101-110 | `Put` of the ordered map, and when exactly it panics; the run's size and cost follow the load policy |
| `PlainMap.PlainMap.Add` | bench/map-proto-ordered.ts:90-99 | the value raised, or appended at `delta`, as one `Put`; panics exactly on a full table or an overflowing value |
| `PlainMap.PlainMap.InsertAt` | bench/map-proto-ordered.ts:113-126 | appends, and rebuilds past three quarters; the map is `Put` of the old one |
| `PlainMap.PlainMap.Delete` | bench/map-proto-ordered.ts:128-139 | answers whether the key was there, and is `Remove` of the ordered map; the bucket array stays |
| `PlainMap.PlainMap.Rebuild` | bench/map-proto-ordered.ts:146-184 | the same ordered map afterwards, in a table whose size the policy gives |
| `PlainMap.PlainMap.Compact` | bench/map-proto-ordered.ts:149-162 | in place, the arrays become exactly the live entries in their order |
| `PlainMap.PlainMap.Refile` | bench/map-proto-ordered.ts:175-183 | every entry filed once from its home on, all reachable |
| `PlainMap.PlainMap.FindFree` | bench/map-proto-ordered.ts:176-179 | the first empty bucket of the cyclic path; the loop ends |
| `PlainMap.PlainMap.Sum` | bench/map-proto-ordered.ts:187-195 | the wrapping sum is the exact sum of the live values, wrapped |
| `Fp64Map.Fp64Map.constructor` | bench/map-proto-ordered-fp.ts:55-60 | an empty table of 8 buckets means the empty map |
| `Fp64Map.Fp64Map.Probe` | bench/map-proto-ordered-fp.ts:67-86 | the loop over the words answers what the search over the buckets does: the entry's index, its bucket in `found`, or the empty bucket as a negative number; it ends, without the panic |
| `Fp64Map.Fp64Map.Get` | bench/map-proto-ordered-fp.ts:88-91 | the ordered map's value, or `missing`; the map is unchanged |
| `Fp64Map.Fp64Map.Set` | bench/map-proto-ordered-fp.ts:106-116 | `Put` of the ordered map, and when exactly it panics; the run's size and cost follow the load policy |
| `Fp64Map.Fp64Map.Add` | bench/map-proto-ordered-fp.ts:94-104 | the value raised, or appended at `delta`, as one `Put`; panics exactly on a full table or an overflowing value |
| `Fp64Map.Fp64Map.InsertAt` | bench/map-proto-ordered-fp.ts:119-132 | appends, and rebuilds past three quarters; the map is `Put` of the old one |
| `Fp64Map.Fp64Map.Delete` | bench/map-proto-ordered-fp.ts:134-145 | answers whether the key was there, and is `Remove` of the ordered map; the bucket array stays |
| `Fp64Map.Fp64Map.Rebuild` | bench/map-proto-ordered-fp.ts:152-191 | the same ordered map afterwards, in a table whose size the policy gives |
| `Fp64Map.Fp64Map.Compact` | bench/map-proto-ordered-fp.ts:155-169 | in place, the arrays become exactly the live entries in their order |
| `Fp64Map.Fp64Map.Refile` | bench/map-proto-ordered-fp.ts:182-190 | every entry filed once from its home on, all reachable |
| `Fp64Map.Fp64Map.FindFree` | bench/map-proto-ordered-fp.ts:183-186 | the first empty bucket of the cyclic path; the loop ends |
| `Fp64Map.Fp64Map.Sum` | bench/map-proto-ordered-fp.ts:194-202 | the wrapping sum is the exact sum of the live values, wrapped |
| `Fp32Map.Fp32Map.constructor` | bench/map-proto-ordered-fp32.ts:60-65 | an empty table of 8 buckets means the empty map |
| `Fp32Map.Fp32Map.Probe` | bench/map-proto-ordered-fp32.ts:73-99 | the loop over the words answers what the search over the buckets does: the entry's index, its bucket in `found`, or the empty bucket as a negative number; it ends, without the panic |
| `Fp32Map.Fp32Map.Get` | bench/map-proto-ordered-fp32.ts:101-104 | the ordered map's value, or `missing`; the map is unchanged |
| `Fp32Map.Fp32Map.Set` | bench/map-proto-ordered-fp32.ts:119-129 | `Put` of the ordered map, and when exactly it panics; the run's size and cost follow the load policy |
| `Fp32Map.Fp32Map.Add` | bench/map-proto-ordered-fp32.ts:107-117 | the value raised, or appended at `delta`, as one `Put`; panics exactly on a full table or an overflowing value |
| `Fp32Map.Fp32Map.InsertAt` | bench/map-proto-ordered-fp32.ts:132-150 | appends, and rebuilds past three quarters; the map is `Put` of the old one |
| `Fp32Map.Fp32Map.Delete` | bench/map-proto-ordered-fp32.ts:152-163 | answers whether the key was there, and is `Remove` of the ordered map; the bucket array stays |
| `Fp32Map.Fp32Map.Rebuild` | bench/map-proto-ordered-fp32.ts:170-209 | the same ordered map afterwards, in a table whose size the policy gives |
| `Fp32Map.Fp32Map.Compact` | bench/map-proto-ordered-fp32.ts:173-187 | in place, the arrays become exactly the live entries in their order |
| `Fp32Map.Fp32Map.Refile` | bench/map-proto-ordered-fp32.ts:200-208 | every entry filed once from its home on, all reachable |
| `Fp32Map.Fp32Map.FindFree` | bench/map-proto-ordered-fp32.ts:201-204 | the first empty bucket of the cyclic path; the loop ends |
| `Fp32Map.Fp32Map.Sum` | bench/map-proto-ordered-fp32.ts:212-220 | the wrapping sum is the exact sum of the live values, wrapped |
| `StringMap.StringMap.constructor` | bench/map-vs-stringmap.ts:80-86 | an empty map of 16 buckets |
| `StringMap.StringMap.Probe` | bench/map-vs-stringmap.ts:108-123 | finds the entry or the empty bucket where the search over the buckets does, with no index out of range and without relying on hashes that are not 0 |
| `StringMap.StringMap.Index` | bench/map-vs-stringmap.ts:126-129 | the position of the key in insertion order, or -1 exactly when it is absent |
| `StringMap.StringMap.Get` | bench/map-vs-stringmap.ts:140-143 | the ordered map's value, or `missing` |
| `StringMap.StringMap.Set` | bench/map-vs-stringmap.ts:146-154 | `Put` of the ordered map; the keys there before keep their indices; the buckets double exactly when a new key takes more than three quarters of them |
| `StringMap.StringMap.Add` | bench/map-vs-stringmap.ts:157-165 | inserts only an absent key and says which it was; a value already there is left alone |
| `StringMap.StringMap.Count` | bench/map-vs-stringmap.ts:479-491 | the fused count is `set(key, get(key, 0) + 1)`, in one probe |
| `StringMap.StringMap.InsertAt` | bench/map-vs-stringmap.ts:168-180 | appends at the end, and doubles the buckets exactly past three quarters; no key moves |
| `StringMap.StringMap.Grow` | bench/map-vs-stringmap.ts:187-201 | doubles and refiles: the same map, every index as it was |
| `StringMap.StringMap.Refile` | bench/map-vs-stringmap.ts:191-200 | every entry filed once from its stored hash, all reachable |
| `StringMap.StringMap.FindFree` | bench/map-vs-stringmap.ts:194-197 | the first empty bucket of the cyclic path; the loop ends |
| `BackwardShift.MayMove` | bench/map-proto-unordered.ts:138-140 | the masked comparison of `delete` holds exactly when the hole lies on the cyclic path from the entry's home to its bucket |
| `BackwardShift.ShiftStarts` | bench/map-proto-unordered.ts:131-136 | emptying the found bucket leaves only the entries from the next bucket on in question |
| `BackwardShift.ShiftMoves` | bench/map-proto-unordered.ts:140-154 | moving an entry into the hole keeps every settled key reachable, with the hole where it was |
| `BackwardShift.ShiftPasses` | bench/map-proto-unordered.ts:140-155 | leaving an entry whose path avoids the hole keeps it reachable without the hole |
| `BackwardShift.ShiftEnds` | bench/map-proto-unordered.ts:137-160 | at the first empty bucket the hole can be emptied: every key is reachable and one bucket fewer is taken |
| `BackwardShift.MoveMeans` | bench/map-proto-unordered.ts:149-153 | a move takes value and key along: the map the buckets spell is the same |
| `BackwardShift.EmptyMeans` | bench/map-proto-unordered.ts:130-136 | emptying the key's bucket removes exactly that key from the map |
| `BackwardShift.CopyFiles` | bench/map-proto-unordered.ts:175-187 | one turn of the growth loop: the entries copied so far are reachable in the new table with their values |
| `BackwardShift.CopyEnds` | bench/map-proto-unordered.ts:166-189 | the grown table spells the same map, with as many buckets taken |
| `BackwardShift.CellsMean` | bench/map-proto-unordered.ts:191-200 | the buckets read in order are the finite map, each key once |
| `UnorderedMap.UnorderedMap.constructor` | bench/map-proto-unordered.ts:48-52 | an empty table of 8 buckets means the empty map |
| `UnorderedMap.UnorderedMap.Probe` | bench/map-proto-unordered.ts:59-76 | the loop answers what the search over the buckets does, and ends without the panic |
| `UnorderedMap.UnorderedMap.Get` | bench/map-proto-unordered.ts:78-81 | the finite map's value, or `missing` |
| `UnorderedMap.UnorderedMap.Set` | bench/map-proto-unordered.ts:96-106 | the finite map updated; panics exactly for a new key in a table of 2^30 buckets; the table only doubles, and only past three quarters |
| `UnorderedMap.UnorderedMap.Add` | bench/map-proto-unordered.ts:84-94 | the value raised, or inserted at `delta`; panics exactly on overflow or a full table |
| `UnorderedMap.UnorderedMap.InsertAt` | bench/map-proto-unordered.ts:108-123 | the key added, the table grown past three quarters |
| `UnorderedMap.UnorderedMap.Delete` | bench/map-proto-unordered.ts:130-163 | answers whether the key was there; exactly that key goes, every other stays with its value and is still found, and no array is replaced |
| `UnorderedMap.UnorderedMap.Shift` | bench/map-proto-unordered.ts:135-156 | the shifting loop ends at a hole whose emptying leaves every key reachable and the map the same |
| `UnorderedMap.UnorderedMap.Grow` | bench/map-proto-unordered.ts:166-189 | the same map in arrays of exactly twice the size |
| `UnorderedMap.UnorderedMap.Refile` | bench/map-proto-unordered.ts:175-188 | every entry copied once, with its value, to a reachable bucket |
| `UnorderedMap.UnorderedMap.FindFree` | bench/map-proto-unordered.ts:178-181 | the first empty bucket of the cyclic path; the loop ends |
| `UnorderedMap.UnorderedMap.Sum` | bench/map-proto-unordered.ts:192-200 | the wrapping sum in bucket order is that of any ordered map with the same entries |
| `UnorderedMap.ProbeMeans` | bench/map-proto-unordered.ts:54-76 | in a table at most three quarters full a probe finds the key with its value, or where it would go and that the map lacks it |
| `UnorderedMap.HoldingInsert` | bench/map-proto-unordered.ts:108-119 | filling the bucket a probe stopped at adds exactly that key, and a doubled table stays within 2^30 |
| `UnorderedMap.HoldingDelete` | bench/map-proto-unordered.ts:130-136 | the state in which the shifting loop starts, with the map already without the key |
| `Runs.RunsAgree` | bench/map-proto-ordered.ts:61-184 | after any run of set, add and delete the ordered map has distinct keys and is the finite map of the run with an order |
| `Runs.StepLaws` | bench/map-proto-ordered.ts:89-139 | one operation changes the value of its own key as its kind says, and no other key's |
| `Runs.ValueIsSum` | bench/map-proto-ordered.ts:89-98 | over any run: from any point on, while a key is only added to, its value grows by exactly the sum of the amounts added |
| `Runs.ObservationsAgree` | bench/map-proto-unordered.ts:78-200 | any table holding that finite map shows the same values, count and sum as the ordered map |
| `Runs.Unscramble` | bench/map-proto-ordered.ts:366-377 | the odd multiplier has an inverse modulo 2^32 |
| `Runs.IntKeysDistinct` | bench/map-proto-ordered.ts:366-377 | the generated integer keys are distinct |
| `Runs.RunTurn` | bench/map-proto-ordered.ts:464-473 | what one turn of the churn loop does to the ordered map |
| `Runs.ChurnHolds` | bench/map-proto-ordered.ts:460-473 | after any number of turns the table holds exactly the last n / 2 keys set, oldest first |
| `Runs.ChurnResult` | bench/map-proto-ordered.ts:460-474 | the churn ends with exactly n / 2 live entries, whose sum is n (31 n - 2) / 8 |
| `Layouts.StepPlain` | bench/map-proto-ordered.ts:84-139 | one operation is the ordered map's step, costs the load what the policy says, and panics exactly when a value overflows or a new key finds 2^30 buckets |
| `Layouts.StepFp64` | bench/map-proto-ordered-fp.ts:88-145 | the same on the `i64` layout |
| `Layouts.StepFp32` | bench/map-proto-ordered-fp32.ts:101-163 | the same on the `u32` layout, where a new key panics exactly at the cap on entries |
| `Layouts.StepUnordered` | bench/map-proto-unordered.ts:78-163 | the same on the unordered layout, whose size doubles exactly past three quarters |
| `Layouts.RunPlain` | bench/map-proto-ordered.ts:42-196 | a whole run on the plain layout is the run of the ordered map, its load the run's; it panics exactly when the run does not pass, and never, however long, while no value overflows and no more than 201326591 keys are live; the size follows the peak live count and the scans the new keys |
| `Layouts.RunFp64` | bench/map-proto-ordered-fp.ts:43-203 | the same on the `i64` layout |
| `Layouts.RunFp32` | bench/map-proto-ordered-fp32.ts:48-221 | the same on the `u32` layout, with the cap on entries for the limit: no panic while no value overflows and at most 2^22 - 1 keys are live |
| `Layouts.RunUnordered` | bench/map-proto-unordered.ts:39-201 | a whole run on the unordered layout is the run of the finite map; it panics exactly when the run does not pass, and its size too follows the peak live count |
| `Layouts.Observe` | bench/map-proto-unordered.ts:9-13 | after exactly the runs that pass under all three limits, all four layouts show the same value for any key, the same live count and the same wrapping sum; every run that overflows no value and never holds more than 2^22 - 1 keys passes |
| `RunLoads.LoadRunMeans` | bench/map-proto-ordered.ts:112-184 | the load of a run of operations counts its live keys, the largest live count at any time, and the operations that brought in a key; it keeps the policy's invariant |
| `RunLoads.HistoryMeans` | bench/map-proto-ordered.ts:112-184 | that load is the policy's load of the run's insertions and deletions, so what holds of every step sequence holds of every run |
| `RunLoads.PeakIsLargest` | bench/map-proto-ordered.ts:112-184 | the peak is the largest number of keys at any time of the run |
| `RunLoads.RunCosts` | bench/map-proto-ordered.ts:122-184 | per run: rebuilds scan at most three entries for each operation that brings in a key, 3 * slots <= max(24, 16 * peak), and at most three quarters of the buckets are taken |
| `RunLoads.BucketRunMeans` | bench/map-proto-unordered.ts:120-122 | the table that only doubles is at most three quarters taken, and beyond its first 8 slots has 3 * slots < 8 * peak |
| `RunLoads.PassesBelow` | bench/map-proto-ordered-fp32.ts:132-137 | a run of any length passes when no value overflows and the peak stays below the limit's bound |
| `RunLoads.PassesFits` | bench/map-proto-ordered.ts:90-97 | a run that passes overflows no value |
| `RunLoads.FillPanics` | bench/map-proto-ordered.ts:113-148 | a run that does not pass: one more different key than 402653185 |
| `Workload.IntKeys` | bench/map-proto-ordered.ts:371-377 | the loop makes 2 n distinct keys, key i being i * 2654435761 modulo 2^32 |
| `Workload.ChurnCosts` | bench/map-proto-ordered.ts:460-473 | the churn overflows no value and never holds more than n / 2 + 1 keys |
| `Workload.ChurnPlain` | bench/map-proto-ordered.ts:460-474 | the churn loop on the plain table: it never panics, and the count and the wrapping sum it prints are n / 2 and n (31 n - 2) / 8 |
| `Workload.ChurnFp64` | bench/map-proto-ordered-fp.ts:43-203 | the churn's operations on the `i64` layout print the same, without a panic |
| `Workload.ChurnFp32` | bench/map-proto-ordered-fp32.ts:132-137 | on the `u32` layout they print the same exactly when the run passes under the cap, as it does up to n = 2^22 |
| `Workload.ChurnUnordered` | bench/map-proto-unordered.ts:470-484 | on the unordered layout they print the same, without a panic |
| `StringRuns.WritesMean` | bench/map-vs-stringmap.ts:146-165 | a run of sets, adds and counts is one sequence of writes to the ordered map |
| `StringRuns.IndexForEver` | bench/map-vs-stringmap.ts:182-186 | an index found for a key is its index after any further calls, across every growth |
| `StringRuns.CountsCounted` | bench/map-vs-stringmap.ts:479-491 | over any run: a key that is only counted has been raised by exactly the number of calls that count it |
| `StringRuns.Make` | bench/map-vs-stringmap.ts:146-165 | one call is its write, and panics exactly when a new key exceeds the cap or a count overflows |
| `StringRuns.MakeAll` | bench/map-vs-stringmap.ts:146-201 | a run of calls leaves the run's map, and panics exactly when some call does not fit |
| `StringRuns.HoldIndex` | bench/map-vs-stringmap.ts:126-186 | an index asked for before a run and again after it is the same |
| `JobProtocol.PushKeeps` | examples/prefork-jobs.ts:128-136 | sending a job keeps the invariant, of which one part is that a job of number k adds k to counter k % 8 |
| `JobProtocol.ReceiveKeeps` | examples/prefork-jobs.ts:144-152 | taking an answer keeps the invariant: it is the next number, and not wrong |
| `JobProtocol.AnsweringKeeps` | examples/prefork-jobs.ts:91-107 | answering a job keeps the invariant: its number moves from the owner to the end of the answers |
| `JobProtocol.StepKeeps` | examples/prefork-jobs.ts:79-159 | every step of the owner and of any client keeps the invariant |
| `JobProtocol.InvHolds` | examples/prefork-jobs.ts:79-159 | every state of every run satisfies the invariant, whatever the schedule, refusals and timeouts |
| `JobProtocol.WindowKept` | examples/prefork-jobs.ts:127-153 | for each client the numbers answered, held and queued are exactly got+1 .. sent-1 in that order, at most 32 of them, and no answer was ever wrong |
| `JobProtocol.AnswerPushNeverFails` | examples/prefork-jobs.ts:104-105 | whenever the owner holds a job its client's answer ring has room, so the push whose result is ignored succeeds |
| `JobProtocol.CountersConserved` | examples/prefork-jobs.ts:91-113 | in every state each counter is the sum of the amounts of exactly the answered jobs that name it, and the answered jobs of each client are its first ones, each once and in order |
| `JobProtocol.ServedStep` | examples/prefork-jobs.ts:91-107 | every step keeps the account of the answered jobs |
| `JobProtocol.SupervisorVerdict` | examples/prefork-jobs.ts:177-183 | once all workers are gone the failures are the answers the clients did not get, and the exit code is 0 if and only if there are none, if and only if every client got 10000; then the totals are 40000 jobs and 200020000 |
| `JobAnswers.StepReplies` | examples/prefork-jobs.ts:91-107 | every step keeps it that what a client has heard and what its ring holds are the replies its jobs so far are owed |
| `JobAnswers.ClientCan` | examples/prefork-jobs.ts:127-158 | in every state of every run: a client sends exactly while fewer than 32 of its jobs are in flight, jobs are left and the ring has room; waiting, it takes an answer exactly when there is one, may give up exactly when there is none, and sends again exactly when none is in flight |
| `JobAnswers.ClientGoes` | examples/prefork-jobs.ts:127-158 | where each step takes a client: it leaves its loop by giving up or at its 10000th answer, and then tries its end mark and reports before it exits |
| `JobAnswers.AnswersAreSums` | examples/prefork-jobs.ts:101-105 | over every run: the answer to a job, taken or still in its client's ring, is the client's answer with the job's number, and its value is the sum of the amounts of all jobs served up to and including it that name the same counter |
| `JobAnswers.CheckMeans` | examples/prefork-jobs.ts:144-152 | whatever a client is sent, it counts as wrong exactly the answers that are out of order or smaller than their place, and leaves its loop at the 10000th |
| `JobAnswers.AnsweredChanges` | examples/prefork-jobs.ts:91-107 | a negative counter is an end mark, counters 0 to 7 of clients 1 to 4 are counted and answered, and anything else changes nothing |
| `JobAnswers.CounterIs` | examples/prefork-jobs.ts:116-131 | in every state of every run counter c holds, over the four clients, the sum of the numbers answered so far that are c modulo 8 |
| `JobAnswers.FinalCounters` | examples/prefork-jobs.ts:116-131 | after a complete run counter 0 holds 25020000 and counter c from 1 to 7 holds 24980000 + 5000 c |
| `JobEnd.StepEnds` | examples/prefork-jobs.ts:79-159 | every step keeps it that a client has at most one end mark anywhere, only once it has left its loop, with none of its jobs behind it |
| `JobEnd.DoneIsMarks` | examples/prefork-jobs.ts:90-96 | in every state of every run `done` is the number of end marks taken: at most one of each client, and only of one that has left its loop and none of whose jobs is queued |
| `JobEnd.OwnerStops` | examples/prefork-jobs.ts:90-113 | the owner can stop exactly when it holds no job and the job ring is empty, for the four end marks as much as for the timeout; it has then answered every job sent so far |
| `JobEnd.SomeRunCompletes` | examples/prefork-jobs.ts:79-183 | some run gets all 40000 jobs answered and ends with the exit code 0 |
| `JobEnd.RingBound` | examples/prefork-jobs.ts:51-59 | the job ring never holds more than its 64 jobs, and two full windows of 32 fill it |
| `Histogram.Bin` | examples/histogram-atomic.ts:61 | the bin b of a value x is its top byte: 2^24 b <= x < 2^24 (b + 1) |
| `Histogram.XorshiftBits` | examples/histogram-atomic.ts:58-60 | bit by bit a round is three mixes: with the bits 13 places below, then 17 above, then 5 below |
| `Histogram.CountMeans` | examples/histogram-atomic.ts:57-65 | the count of a bin is the number of rounds, from the first to the last, whose value has that top byte |
| `Histogram.BinPlain` | examples/histogram-atomic.ts:124-136 | the loop adds to each bin the number of generated values with that top byte |
| `Histogram.Single` | examples/histogram-atomic.ts:141-147 | the single-threaded round, bin by bin |
| `Histogram.InvHolds` | examples/histogram-atomic.ts:51-121 | under any schedule each bin is the sum of what the tasks have put in so far, and the lock is held by the one task inside |
| `Histogram.AnyScheduleAgrees` | examples/histogram-atomic.ts:51-183 | for local tallies, atomic adds and the lock alike: under any schedule the joined bins equal the single-threaded bins, no increment lost |
| `Histogram.MutualExclusion` | examples/histogram-atomic.ts:117-118 | at most one task is between acquiring and releasing the lock |
| `Histogram.NoDeadlock` | examples/histogram-atomic.ts:109-121 | until all tasks are joined some task can take a step |
| `Histogram.StepProgress` | examples/histogram-atomic.ts:51-121 | every step that changes anything brings its task nearer to its end |
| `Histogram.NoOverflow` | examples/histogram-atomic.ts:25-28 | no bin ever exceeds the number of values, so at the program's sizes no `i32` overflows |
| `Histogram.BinsTotal` | examples/histogram-atomic.ts:51-70 | one task's bins total its number of values |
| `Histogram.RoundTotal` | examples/histogram-atomic.ts:139-183 | under any schedule the joined bins total tasks times values |
| `JsonScan.ScanJson` | bench/scan.ts:29-72 | the loop with its early returns computes the fold of the scanner over the bytes |
| `JsonScan.IsJsonShaped` | bench/scan.ts:80 | answers whether the scan is not negative |
| `JsonScan.ScanIsVerdict` | bench/scan.ts:19-72 | however a document is spelled, the scan is the verdict on its tokens: the depth error, the unterminated error, or the number counted |
| `JsonScan.ParseBytes` | bench/scan.ts:36-66 | every byte sequence is the spelling of a document: tokens, escapes, perhaps a string cut short |
| `JsonScan.InBoundsEverywhere` | bench/scan.ts:54-62 | the depth check at each token is a check of every prefix |
| `JsonScan.AcceptsExactly` | bench/scan.ts:29-72 | the scan is not negative exactly when all strings close and the depth outside strings stays in 0..64 and ends at 0; then it is the number of tokens; the depth error is answered exactly when the depth leaves 0..64 |
| `JsonScan.SevenBytes` | bench/scan.ts:36-66 | between two tokens a byte can be left out whatever follows if and only if it is not one of the bytes 34, 44, 58, 91, 93, 123 and 125 |
| `JsonPrint.ReadsJson` | bench/scan.ts:29-72 | scanning a JSON value anywhere between tokens adds exactly its weight and needs exactly its nesting |
| `JsonPrint.ScanPrinted` | bench/scan.ts:16-72 | scanning any JSON text of RFC 8259, with white space (bytes 32, 9, 10, 13), numbers, `true`, `false`, `null` and strings by its grammar, gives exactly its number of strings, brackets, commas and colons when it nests at most 64 deep, and -1 otherwise |
| `Router.LinearTable.constructor` | bench/router.ts:169-177 | an empty table |
| `Router.LinearTable.Add` | bench/router.ts:179-206 | the table's routes are the old ones and the new one with its pattern |
| `Router.LinearTable.AddSegments` | bench/router.ts:182-204 | the splitting loop appends exactly the pattern's segments, each with its kind; what the kinds mean is `FitsAgrees` |
| `Router.LinearTable.AddSegment` | bench/router.ts:196-201 | one segment appended, its bytes copied in order |
| `Router.JoinParts` | bench/router.ts:185-203 | joining the segments of a path with slashes gives the path back |
| `Router.PartsClean` | bench/router.ts:185-188 | no segment holds a slash |
| `Router.StoredJoins` | bench/router.ts:179-206 | joining the segments stored for a pattern gives the pattern back |
| `Router.SameMethod` | bench/router.ts:210-220 | answers whether the method spells the text |
| `Router.LinearTable.SameBytes` | bench/router.ts:265-270 | answers whether a stored literal equals a stretch of the target |
| `Router.LinearTable.MatchRoute` | bench/router.ts:229-276 | the walk along one route answers whether it fits the target, and then the offset pairs of its parameters are in `params` |
| `Router.LinearTable.LinearMatch` | bench/router.ts:223-279 | the smallest index of a route whose method and pattern match, or -1 when none does; then `params` holds in order the stretch of each segment that begins with a colon, and for `*` the stretch from its segment to the end |
| `Router.FitsAgrees` | bench/router.ts:188-195 | by the pattern's bytes, segment by segment up to a segment that is just `*`: one that begins with a colon stands for any segment that is not empty, any other for itself; `*` stands for one segment or more, and without it the numbers of segments are equal |
| `Router.CapturesAgree` | bench/router.ts:234-273 | by the pattern's bytes: the pairs are, in order, the segments of the target under those that begin with a colon, and the whole rest under `*` |
| `Router.StartOfPart` | bench/router.ts:234-240 | the stretch named for a segment of the target spells that segment, and from its start to the end the rest |
| `Router.WrittenAnswers` | bench/router.ts:245-257 | the pairs written to `params` by a match are those |
| `Router.MatchRebuilds` | bench/router.ts:223-276 | putting the captured stretches into the route's pattern rebuilds the target exactly |
| `Router.FilledFits` | bench/router.ts:234-273 | conversely, a target spelled by putting values into a route's segments is matched by that route |
| `Router.MatchMeans` | bench/router.ts:179-276 | a pattern matches a target if and only if some values for its parameters, without slashes and not empty, and any rest for its wildcard, spell the target |
| `Scheduler.Bucket` | bench/pg-batch-clock.ts:135-138 | waits below 999990 fall into buckets of ten microseconds, all others into bucket 99999 |
| `Scheduler.Want` | bench/pg-batch-clock.ts:88 | the rank wanted is the smallest whole number that is at least p percent of the count |
| `Scheduler.Percentile` | bench/pg-batch-clock.ts:87-97 | the loop answers the first bucket up to which at least the wanted number of waits lies, or the end of the buckets |
| `Scheduler.NearestRank` | bench/pg-batch-clock.ts:86-97 | that is the bucket of the nearest rank: of the ceil(count * p / 100)-th of the waits in order |
| `Scheduler.TalliedBelow` | bench/pg-batch-clock.ts:135-138 | the buckets below any bound together hold exactly the waits that fall below it |
| `Scheduler.TalliedTotal` | bench/pg-batch-clock.ts:134-139 | the buckets hold every wait once |
| `Scheduler.RingPush` | bench/pg-batch-clock.ts:172-174 | what the ring shows after an arrival, also once it is over full and the oldest entry is overwritten |
| `Scheduler.RingPop` | bench/pg-batch-clock.ts:134-141 | what the ring shows after a batch has been taken from its head |
| `Scheduler.LaunchedExact` | bench/pg-batch-clock.ts:132-139 | a batch keeps the waits exact if and only if at most `QUEUE` requests were waiting |
| `Scheduler.LaunchSound` | bench/pg-batch-clock.ts:132-156 | starting a batch keeps the invariant and makes one more connection busy |
| `Scheduler.AcceptSound` | bench/pg-batch-clock.ts:171-177 | accepting an arrival keeps the invariant |
| `Scheduler.DueSound` | bench/pg-batch-clock.ts:125-156 | starting all batches that are due keeps the invariant; past the arrivals nothing is left waiting beside a free connection |
| `Scheduler.NextTimeMeans` | bench/pg-batch-clock.ts:157-171 | the next event is never before now while arrivals last, nor past the next arrival; after them it lies between `end` and the last resort; the branch that would set it to now is dead |
| `Scheduler.NextIsEarliest` | bench/pg-batch-clock.ts:157-167 | the next event is the earliest of the next arrival (past the arrivals, of the last resort at 40000000), the ends of the batches in flight and, while a connection is free, a deadline still to come; it is one of them and none of them is jumped over |
| `Scheduler.BegunMeans` | bench/pg-batch-clock.ts:118-156 | which batches a turn starts: each for the clock's answer or because the arrivals have ended, until nothing waits, no connection is free or the answer is no; batch r takes up to 128 of what waits, occupies the r-th connection without a batch still running, and ends after its service time |
| `Scheduler.TurnEvent` | bench/pg-batch-clock.ts:157-178 | the rest of a turn: time moves to that earliest event, and an arrival is accepted exactly when it is one before the end |
| `Scheduler.TurnExtends` | bench/pg-batch-clock.ts:117-178 | a turn only adds to the arrivals and the batches started |
| `Scheduler.TurnAdvances` | bench/pg-batch-clock.ts:117-178 | a turn advances the time, but for a first arrival at time 0; past the arrivals it does so while work is left, unless the run is late |
| `Scheduler.LateRuns` | bench/pg-batch-clock.ts:117-178 | a late run never ends, however many turns it takes |
| `Scheduler.OnTimeEnds` | bench/pg-batch-clock.ts:117-178 | a run that is not late ends within a bounded number of turns |
| `Scheduler.EndsUnlessLate` | bench/pg-batch-clock.ts:117-178 | given enough turns the loop has ended if and only if no batch in flight after the arrivals ends past `end + SECONDS * MILLION` |
| `Scheduler.EndedMeans` | bench/pg-batch-clock.ts:117-182 | the loop has ended if and only if the time is past the arrivals, every request accepted has started and no connection is busy; then every arrival drawn before `end` was started once, in batches of 1 to 128, and the buckets hold every wait |
| `Scheduler.AlwaysMeans` | bench/pg-batch-clock.ts:112-177 | at any time arrivals are those started and those waiting, `inFlight` is the number of busy connections and at most 4, the buckets total the requests started, and no `i32` sum overflows |
| `Scheduler.ExactUnlessCrowded` | bench/pg-batch-clock.ts:134-139 | the waits counted are each request's own, in the order of arrival, if and only if no batch started while more than `QUEUE` requests waited |
| `Scheduler.RunExtends` | bench/pg-batch-clock.ts:117-178 | what has arrived or started stays so for the rest of the run |
| `Scheduler.TimesRise` | bench/pg-batch-clock.ts:116-176 | arrival times strictly increase, whatever the gaps |
| `SchedulerBounds.TurnSteady` | bench/pg-batch-clock.ts:117-178 | what a turn keeps when batches take at least so much for each request and at most so much in all: no more requests are started than four connections' time so far allows |
| `SchedulerBounds.ArrivalsBound` | bench/pg-batch-clock.ts:116-177 | how many requests have arrived, from bounds on the gaps |
| `SchedulerBounds.Overloaded` | bench/pg-batch-clock.ts:117-178 | when the requests to come add up to more work than four connections do by the last resort event, the loop never ends, whatever the clock answers |
| `SchedulerBounds.Stalls` | bench/pg-batch-clock.ts:107-109 | an instance the program's formulas allow: a request every 33 microseconds and service times of at most 52599; the loop never ends, and the ring holds every request |
| `SchedulerBounds.Overfills` | bench/pg-batch-clock.ts:134-174 | an instance of the over-full ring: a request every microsecond, and a batch starts while more than `QUEUE` requests wait |
| `SchedulerBounds.TurnInTime` | bench/pg-batch-clock.ts:117-178 | past the arrivals a turn keeps it that the work left fits before the last resort event |
| `SchedulerBounds.EndsIfDrained` | bench/pg-batch-clock.ts:117-178 | when the requests that wait as the arrivals end can be worked off in time, the loop ends, whatever the clock answers |
| `SchedulerBounds.DrainableBacklog` | bench/pg-batch-clock.ts:107-109 | for batches of at most 52600 microseconds 193664 waiting requests can be worked off |
| `SchedulerBounds.EndsIfSparse` | bench/pg-batch-clock.ts:117-178 | with gaps and service times bounded beforehand so that all arrivals could be worked off, the loop ends |
| `Scheduler.Simulation.constructor` | bench/pg-batch-clock.ts:101-116 | the state before the first turn, with the buckets cleared |
| `Scheduler.Simulation.Free` | bench/pg-batch-clock.ts:118-124 | exactly the connections whose batch is done are freed, and `inFlight` is again the number of busy ones |
| `Scheduler.Simulation.FindFree` | bench/pg-batch-clock.ts:125-131 | the first free connection, or -1 |
| `Scheduler.Simulation.Record` | bench/pg-batch-clock.ts:133-139 | the counting loop adds exactly the waits of the batch to the buckets |
| `Scheduler.Simulation.StartBatch` | bench/pg-batch-clock.ts:133-148 | the whole state after a batch has started |
| `Scheduler.Simulation.StartDue` | bench/pg-batch-clock.ts:125-156 | the whole state after the inner loop, which ends |
| `Scheduler.Simulation.PickNext` | bench/pg-batch-clock.ts:157-171 | the time of the next event, by the loop over the connections |
| `Scheduler.Simulation.Arrive` | bench/pg-batch-clock.ts:172-177 | the whole state after an arrival |
| `Scheduler.Simulation.Step` | bench/pg-batch-clock.ts:117-178 | one turn of the loop is one step of the state machine |
| `Scheduler.Simulation.RunLoop` | bench/pg-batch-clock.ts:117-178 | the loop is the run of the state machine, and answers whether it has ended |
| `Assembler.BodyRoutes` | bench/http-app-carrier.ts:277-283 | the routes that read a body are exactly `POST /json-echo`, `POST /json-echo-doc` and `POST /json` |
| `Assembler.ConcatAt` | bench/http-app-carrier.ts:356-361 | in a gathered body byte k of chunk i comes after all bytes of the chunks before it |
| `Assembler.Gathered` | bench/http-app-carrier.ts:318-362 | after a head and any chunks, whatever came before on the slot, the body is the chunks joined and only a route without a body has been answered |
| `Assembler.OneReply` | bench/http-app-carrier.ts:318-394 | every whole request gets exactly one reply: on routes 2, 3 and 6 from the joined chunks however they were cut, or the refusal exactly when they exceed 4096 bytes, on all others from the head; also after a body lost midway on the same slot |
| `Assembler.SlotsApart` | bench/http-app-carrier.ts:555-573 | under any interleaving each slot is sent exactly what its own events ask for |
| `Assembler.ChunkHeld` | bench/http-app-carrier.ts:346-362 | too long is sticky: the length field is the body's length up to 4096 bytes and 4097 for ever after |
| `Assembler.EndHeld` | bench/http-app-carrier.ts:365-376 | at the end the fields tell exactly whether the body is whole and what it is |
| `Assembler.Bench.constructor` | bench/http-app-carrier.ts:257-263 | every slot starts without a route, with a buffer of its own |
| `Assembler.Bench.Begin` | bench/http-app-carrier.ts:318-343 | the slot's fields follow its events; a route without a body is answered at once and counted |
| `Assembler.Bench.Gather` | bench/http-app-carrier.ts:346-362 | the slot's fields follow its events; other slots' buffers are untouched |
| `Assembler.Bench.CopyChunk` | bench/http-app-carrier.ts:356-360 | the copy loop writes the chunk behind what is there and nothing else |
| `Assembler.Bench.Finish` | bench/http-app-carrier.ts:365-394 | the slot's fields follow its events; one reply and one count for a route that took a body, none otherwise |

## Left out

- The bits of FNV-1a and of murmur3's finaliser: tables take any hash function, determinism and, where the prototypes rely on it, a result that is not 0 are all that is used.
- The second copy of each class (`IntMap` beside `StrMap`): one class over any key type stands for both.
- Strings as such: keys are values with equality, methods, patterns and targets are byte sequences; character codes past a byte are not modelled.
- Allocation failure, and what a panic leaves behind: after `Panicked` nothing is said about the table.
- The hit, miss, build and count workloads of the map benchmarks, their checksums and their random draws: loops over the operations proved here.
- `keyAt`, `valueAt`, `size` and `has` of `StringMap`: one-line reads of fields the contracts already describe.
- The rings of `std/sync/ring.ts`, shared memory, futexes and processes: the protocol uses bounded queues with atomic pushes and pops; a worker killed midway and the test of `PREFORK_WORKERS_EXITED` are not modelled.
- Liveness of the protocol under a fair schedule: a client may give up at any time a timeout allows, so what holds when it ends is stated, and that a complete run exists (`SomeRunCompletes`).
- Refused pushes: the model lets any push be refused, also when there is room, which only adds runs.
- The memory model of atomics: one step is one indivisible read, write or add; the lock is a holder that at most one task can become.
- `JsonScan.ScanJson`: does not model the overflow of the `i32` token count, which needs 2^31 tokens.
- `JsonPrint.ScanPrinted`: does not ask that the bytes from 128 on in a string be UTF-8, so it holds of more texts than RFC 8259 allows.
- `linearMatchCopy` of the router benchmark, a byte-for-byte copy; the tree router it is measured against; out-of-bounds panics for a `params` array that is too short.
- Floating point in the scheduler: load, stretch, `serverUs` and the random draws; gaps are arbitrary non-negative integers and a batch's service time any function of its size, and overflow of `i64` times is not modelled.
- The clock's own policy, queue and panics, and with them the batching trade-off the simulation prints: `PgBatchClock` is not part of this model.
- `Assembler.Bench.Finish`: does not model what the JSON handlers make of a whole body (200 or 400) nor the bytes of responses, only which bytes they are given.
- `Assembler.Bench.Begin`: takes the route the router matched as given, and does not model the overflow of the `requests` count at 2^31.
- The sockets, polling, `TCP_QUICKACK` and the request limit of the carrier server; the query and deep-route answers.
- `sieve`, `fib`, string building, sorting and the numeric kernels of the benchmarks, and the compiler: easy beside the core, or floating point, or another subject.
