# Sequential cuckoo hash set

A Dafny model of the single-threaded two-table cuckoo hash set of the `Cuckoo_Hashing`
repository. The class appears four times:

- `CuckooSequentialSet` in src/header/serial-cuckoo.h, src/serial-cuckoo.h and
  new-serial-cuckoo.h. These three are one algorithm. src/serial-cuckoo.h and
  new-serial-cuckoo.h give the constructor a default capacity of 16. new-serial-cuckoo.h
  calls `add` `insert` and logs the values `populate` could not insert. The class
  `SerialCuckoo.CuckooSequentialSet` models all three.
- `SequentialCuckooSet` in cuckoo-serial2.h. Its `resize` has no re-entry guard and salts
  the hashes from the clock, and its `populate` stops at the first failure. The class
  `SerialCuckoo2.SequentialCuckooSet` models it.

A set holds two tables of `capacity` slots. A value `v` may sit at
`table[0][hash1(v)]` or `table[1][hash2(v)]`, where
`hash(key, salt) = (std::hash(key) ^ salt) % capacity`. `add(v)` first asks `contains(v)`.
It then runs up to `maxDisplacements` rounds of swapping the carried entry into its
`table[0]` slot and the evicted entry into its `table[1]` slot. If every round evicts
something, `add`:

1. deletes the entry it is still carrying;
2. resizes (doubles the capacity and the rounds, draws new salts, re-adds every old entry);
3. calls itself again.

The model has three layers:

- `CuckooTables` (CuckooTables.dfy). The table layout as values:
  - `Index`, the `size_t` XOR and the slot function;
  - the multiset of stored values;
  - the invariant pieces `WellPlaced` (every value at its own slot) and `Distinct` (no value twice);
  - the displacement chain `Chain`/`Displace`, one swap per step;
  - the lemmas about these.
- `CuckooSpec` (CuckooSpec.dfy). Each operation as a function on the whole state
  (`SetState`): `Attempt` (one pass of `add`), `AddResult`, `ResizeResult`, `ReinsertFrom`,
  `RemoveResult`, `PopulateResult`, `PopulateUntil`. The lemmas state what these promise.
  A `Policy` value records how the two source versions differ.
- `SerialCuckoo` and `SerialCuckoo2`. The two classes, with the source's fields. Their
  methods change the fields step by step, with the source's loops. Each method is proved
  to leave `State()` equal to the matching CuckooSpec function of the old state.

Values the program gets from outside are parameters:

- `std::hash<T>` is the uninterpreted `keyHash: T -> Word`.
- `std::rand()` and `std::time()` are streams `nat -> Word`, with a counter of the values
  drawn so far.
- A pointer slot is an `Option<T>`.

`add` resizes and calls itself with no argument that this ends. `Add` and `Insert`
therefore take a `fuel` bound on how many resize-and-retry passes follow the first, in the
call itself and in every `add` that one of its resizes runs. `Unfinished` is the answer when
the fuel runs out where the code would try again, in the call or in an `add` nested in one of
its resizes. The state that comes with it is where the code stands at that moment. A resize
in which a nested `add` ran out stops there and reports that it did not finish, so `Added`
and `Rejected` are given only when every nested `add` gave an answer (`FinishedAddResized`,
`FinishedReinsertAdded`). They are the code's `true` and `false`.

Behaviours of the code that the model keeps:

- **Wrong entry discarded.** When the rounds run out, the entry thrown away is whatever is
  being carried at that moment. This may be a value stored earlier, while `v` stays placed
  (`PassDiscardsOther`). The retry can then find `v` and answer `false` for a value that was
  absent, and the older value is gone (`RetryRejects`). The ghost multiset `discarded`
  records every thrown-away value, and the accounting lemmas are stated modulo it.
- **No termination.** If `initialCapacity < 2`, then `maxDisplacements` is 0 and stays 0
  when doubled. An `add` of an absent value then never finishes: it discards the value on
  every pass (`NoRoundsNeverAdds`).
- **Guarded resize.** In the guarded copies, a retry inside a `resize` finds the guard up.
  It then retries without growing the tables (`AddWhileResizing`). The tables and the salts
  stay as they were, so the same chain can exhaust again on every retry. The code's `add`
  then never returns, nor does the `resize` and the outer `add` that ran it. The model
  answers `Unfinished` for the outer `add` once the fuel runs out.

## Model

| member | source | states |
|---|---|---|
| CuckooTables.Index | src/header/serial-cuckoo.h:27-31 | `hash` is a slot of the tables: below `capacity` whenever `capacity > 0` |
| CuckooTables.ProbeFindsStored | src/header/serial-cuckoo.h:156-167 | on well-placed tables the two probes of `contains` succeed exactly when the value is stored |
| CuckooTables.StoredAfterPut | src/header/serial-cuckoo.h:46-52 | writing an entry into a slot replaces that slot's one value and leaves every other stored value |
| CuckooTables.ChainKeepsWellPlaced | src/header/serial-cuckoo.h:117-126 | every swap of the displacement loop puts its entry at that entry's own slot, so all entries stay at their `hash1`/`hash2` slots |
| CuckooTables.ChainKeepsEntries | src/header/serial-cuckoo.h:114-128 | the displacement loop creates and loses nothing: the tables afterwards plus the entry still carried equal the tables before plus the new value |
| CuckooTables.DisplaceOutcome | src/header/serial-cuckoo.h:114-130 | for an absent value the loop keeps the tables well placed and free of repeats. On placement they hold the old values plus the new one; on exhaustion, all but exactly the carried entry; with zero rounds the value itself is carried |
| CuckooTables.EmptyTables | src/header/serial-cuckoo.h:91-98 | tables of empty slots hold nothing and satisfy the invariant |
| CuckooTables.Cleared | src/header/serial-cuckoo.h:134-153 | emptying the slot that holds `v` removes exactly `v` and keeps the invariant |
| CuckooTables.Probe | src/header/serial-cuckoo.h:156-167 | a probe that succeeds has found a value the tables hold; the converse on well-placed tables is `ProbeFindsStored` |
| CuckooTables.Chain | src/header/serial-cuckoo.h:117-126 | the swap-by-swap displacement loop leaves two tables of the same capacity; what it keeps is stated by `ChainKeepsWellPlaced` and `ChainKeepsEntries` |
| CuckooTables.Displace | src/header/serial-cuckoo.h:114-128 | `maxDisplacements` rounds of two swaps leave two tables of the same capacity; its outcome is stated by `DisplaceOutcome` |
| CuckooTables.Clear | src/header/serial-cuckoo.h:139-148 | emptying one slot of `remove` leaves two tables of the same capacity; what it removes is stated by `Cleared` |
| CuckooTables.XorBitsBelow | src/header/serial-cuckoo.h:30 | the XOR of two words fits in 64 bits |
| CuckooSpec.Attempt | src/header/serial-cuckoo.h:109-128 | one pass of `add` changes only the tables and the record of discarded values |
| CuckooSpec.AddResult | src/header/serial-cuckoo.h:109-131 | `add` with its resizes and retries keeps two tables of `capacity` slots; it answers `Unfinished` when its fuel, or that of an `add` nested in one of its resizes, runs out |
| CuckooSpec.Retried | src/header/serial-cuckoo.h:128-129 | the set a retry of `add` starts from (the failed pass, then `resize`) keeps two tables of `capacity` slots |
| CuckooSpec.Regrown | src/header/serial-cuckoo.h:59-71 | the start of `resize` makes both tables twice the old capacity with every slot empty |
| CuckooSpec.ResizeResult | src/header/serial-cuckoo.h:55-87 | `resize` keeps two tables of `capacity` slots, and reports whether every `add` it ran gave an answer |
| CuckooSpec.ReinsertFrom | src/header/serial-cuckoo.h:74-84 | the re-adding loop keeps two tables of `capacity` slots and stops, unfinished, at the first `add` that runs out of fuel |
| CuckooSpec.RemoveResult | src/header/serial-cuckoo.h:134-153 | `remove` keeps two tables of `capacity` slots; its answer and effect are stated by `RemoveAnswers` |
| CuckooSpec.PopulateResult | src/header/serial-cuckoo.h:182-193 | the counting `populate` keeps two tables of `capacity` slots and stops, unfinished, at an `add` that runs out of fuel |
| CuckooSpec.PopulateUntil | cuckoo-serial2.h:152-160 | the bool `populate` keeps two tables of `capacity` slots; where it stops is stated by `PopulateUntilConcat` |
| CuckooSpec.FinishedAddResized | src/header/serial-cuckoo.h:128-130 | an `add` that answers after a failed pass ran a resize in which no nested `add` ran out of fuel |
| CuckooSpec.FinishedReinsertAdded | src/header/serial-cuckoo.h:76-84 | a re-adding loop that finishes got an answer from the `add` of every old value it reached |
| CuckooSpec.AttemptKeepsInv | src/header/serial-cuckoo.h:109-128 | one pass of `add` keeps every value at its own slot and none twice |
| CuckooSpec.AddKeepsInv | src/header/serial-cuckoo.h:109-131 | `add`, with its resizes and retries, keeps the invariant |
| CuckooSpec.ResizeKeepsInv | src/header/serial-cuckoo.h:55-87 | `resize` keeps the invariant under the new salts and capacity |
| CuckooSpec.ReinsertKeepsInv | src/header/serial-cuckoo.h:74-84 | every step of the re-adding loop keeps the invariant |
| CuckooSpec.AttemptAccounts | src/header/serial-cuckoo.h:111-128 | a pass rejects exactly a present value and then changes nothing. Otherwise the tables gain `v` and lose exactly the discarded entry, and the pass adds `v` exactly when nothing is discarded |
| CuckooSpec.AddAccounts | src/header/serial-cuckoo.h:109-131 | `add` of a present value returns false and changes nothing. Otherwise the set afterwards holds nothing but the old values and `v`, and, when `add` answers, whatever it lost was discarded by a chain |
| CuckooSpec.ResizeAccounts | src/header/serial-cuckoo.h:55-87 | `resize` creates nothing, and when it finishes, every value it does not keep was discarded |
| CuckooSpec.ReinsertAccounts | src/header/serial-cuckoo.h:74-84 | the re-adding loop holds only old values it has passed, and when it finishes every old value is held or discarded |
| CuckooSpec.ReinsertStep | src/header/serial-cuckoo.h:78-82 | one slot of the re-adding loop keeps that bookkeeping |
| CuckooSpec.AttemptPlaces | src/header/serial-cuckoo.h:111-125 | a pass that does not give up leaves `v` in the set |
| CuckooSpec.AddPlaces | src/header/serial-cuckoo.h:109-131 | whenever `add(v)` answers `true` or `false`, `v` is in the set afterwards |
| CuckooSpec.AddAnswers | src/header/serial-cuckoo.h:109-131 | `add` answers `true` only for an absent value, and `false` for every present one |
| CuckooSpec.PassDiscardsOther | src/header/serial-cuckoo.h:128 | when the rounds run out carrying an older value, that value leaves the set while `v` stays |
| CuckooSpec.RetryRejects | src/header/serial-cuckoo.h:129-130 | if the resized set holds `v`, the retry answers `false` and changes nothing more; if that resize did not finish, `add` answers `Unfinished` |
| CuckooSpec.AddKeepsNoRounds | src/header/serial-cuckoo.h:93 | a set with zero rounds keeps zero rounds through `add` |
| CuckooSpec.ResizeKeepsNoRounds | src/header/serial-cuckoo.h:63 | doubling zero rounds gives zero rounds |
| CuckooSpec.ReinsertKeepsNoRounds | src/header/serial-cuckoo.h:74-84 | re-adding keeps zero rounds |
| CuckooSpec.NoRoundsPass | src/header/serial-cuckoo.h:117-128 | with zero rounds, a pass on an absent value discards that value and leaves the tables as they were |
| CuckooSpec.ResizeKeepsStuck | src/header/serial-cuckoo.h:55-87 | with zero rounds, `resize` keeps the rounds at zero and brings no value back |
| CuckooSpec.NoRoundsRetry | src/header/serial-cuckoo.h:128-130 | with zero rounds, one failed pass and its resize leave a set that is again stuck on `v`, and no larger |
| CuckooSpec.NoRoundsNeverAdds | src/header/serial-cuckoo.h:109-131 | with zero rounds, `add` of an absent value never finishes, however much fuel, and the set only shrinks |
| CuckooSpec.RemoveAnswers | src/header/serial-cuckoo.h:134-153 | `remove` answers `true` exactly when `v` is in the set. It then takes out that value alone, otherwise it changes nothing, and it keeps the invariant |
| CuckooSpec.AddWhileResizing | src/header/serial-cuckoo.h:57-58 | while a guarded resize is under way, `add` and its retries change only the tables and the discarded values |
| CuckooSpec.ReinsertWhileResizing | src/header/serial-cuckoo.h:74-84 | the re-adding loop of a guarded resize changes only the tables and the discarded values |
| CuckooSpec.ResizeFields | src/header/serial-cuckoo.h:55-87 | a guarded `resize` under way does nothing. Otherwise it doubles `capacity` and `maxDisplacements`, draws `salt1` and `salt2` from `std::rand()` in that order, and ends with the guard down exactly when it finishes |
| CuckooSpec.ResizeFollows | cuckoo-serial2.h:36-58 | a `resize` that runs at least doubles capacity and rounds. In cuckoo-serial2.h it leaves `salt2 == salt1 ^ 0x9e3779b9` |
| CuckooSpec.AddFollows | cuckoo-serial2.h:80-106 | `insert` never shrinks the tables or the rounds and keeps a derived second salt |
| CuckooSpec.ReinsertFollows | cuckoo-serial2.h:50-57 | re-inserting never shrinks the tables or the rounds and keeps a derived second salt |
| CuckooSpec.PopulateKeepsInv | src/header/serial-cuckoo.h:182-193 | `populate` keeps the invariant and counts at most one success per value |
| CuckooSpec.PopulateWithin | src/header/serial-cuckoo.h:182-193 | after `populate` the set holds nothing but its old values and values of the list |
| CuckooSpec.PopulateConcat | src/header/serial-cuckoo.h:185-191 | populating `a + b` is populating `a`, then, if every `add` of `a` answered, `b`, with the counts added |
| CuckooSpec.PopulateUntilConcat | cuckoo-serial2.h:152-160 | the bool `populate` stops at the first failure: values after it are never inserted |
| CuckooSpec.PopulateAgree | cuckoo-serial2.h:152-160 | the bool `populate` answers `true` exactly when the counting one counts every value, and then both leave the same set and the counting one finished |
| SerialCuckoo.CuckooSequentialSet.constructor | src/header/serial-cuckoo.h:91-98 | two tables of `initialCapacity` empty slots (default 16 as in src/serial-cuckoo.h:87), `initialCapacity / 2` rounds, `salt1` from the clock and `salt2` a clock reading XOR `0x9e3779b9`; the set is empty and satisfies the invariant |
| SerialCuckoo.CuckooSequentialSet.Hash | src/header/serial-cuckoo.h:27-31 | `hash` is below `capacity` |
| SerialCuckoo.CuckooSequentialSet.Hash1 | src/header/serial-cuckoo.h:34-37 | `hash1` is the `table[0]` slot under `salt1`, below `capacity` |
| SerialCuckoo.CuckooSequentialSet.Hash2 | src/header/serial-cuckoo.h:40-43 | `hash2` is the `table[1]` slot under `salt2`, below `capacity` |
| SerialCuckoo.CuckooSequentialSet.Swap | src/header/serial-cuckoo.h:46-52 | the entry lands in the slot, the old occupant is returned, and no other slot and no other field changes |
| SerialCuckoo.CuckooSequentialSet.Contains | src/header/serial-cuckoo.h:156-167 | read-only; on a set with the invariant, true exactly when the value is held |
| SerialCuckoo.CuckooSequentialSet.Size | src/header/serial-cuckoo.h:170-178 | the count of occupied slots equals the number of values held |
| SerialCuckoo.CuckooSequentialSet.Remove | src/header/serial-cuckoo.h:134-153 | the new state and answer are those of `RemoveResult`, and the invariant is kept (also src/serial-cuckoo.h:130-149, new-serial-cuckoo.h:130-149) |
| SerialCuckoo.CuckooSequentialSet.Add | src/header/serial-cuckoo.h:109-131 | the new state and answer are those of `AddResult`, whose properties are the lemmas above (also src/serial-cuckoo.h:105-127, and `insert` in new-serial-cuckoo.h:105-127) |
| SerialCuckoo.CuckooSequentialSet.AddPass | src/header/serial-cuckoo.h:111-128 | one pass of `add` is `Attempt`: a present value is rejected; on exhaustion the carried entry is discarded |
| SerialCuckoo.CuckooSequentialSet.Displacements | src/header/serial-cuckoo.h:114-126 | the displacement loop ends as `Displace` says: placed, or carrying an entry, with only the tables changed |
| SerialCuckoo.CuckooSequentialSet.Resize | src/header/serial-cuckoo.h:55-87 | the new state, and whether every nested `add` answered, are those of `ResizeResult` (also src/serial-cuckoo.h:51-83, new-serial-cuckoo.h:51-83) |
| SerialCuckoo.CuckooSequentialSet.RehashRow | src/header/serial-cuckoo.h:76-83 | re-adding one old row either moves the re-adding loop of `ReinsertFrom` to the next row or, at an `add` that runs out of fuel, leaves the state where `ReinsertFrom` stops unfinished |
| SerialCuckoo.CuckooSequentialSet.Populate | src/header/serial-cuckoo.h:182-193 | the new state, the count and whether every `add` answered are those of `PopulateResult`, and the invariant is kept (also new-serial-cuckoo.h:178-193) |
| SerialCuckoo2.SequentialCuckooSet.constructor | cuckoo-serial2.h:62-68 | two tables of `initialCapacity` empty buckets (default 16), `initialCapacity / 2` rounds, salts from two clock readings; the set is empty and satisfies the invariant |
| SerialCuckoo2.SequentialCuckooSet.Hash | cuckoo-serial2.h:21-23 | `hash` is below `capacity` |
| SerialCuckoo2.SequentialCuckooSet.Hash1 | cuckoo-serial2.h:26-28 | `hash1` is the `table[0]` slot under `salt1` |
| SerialCuckoo2.SequentialCuckooSet.Hash2 | cuckoo-serial2.h:31-33 | `hash2` is the `table[1]` slot under `salt2` |
| SerialCuckoo2.SequentialCuckooSet.Contains | cuckoo-serial2.h:128-138 | read-only; on a set with the invariant, true exactly when the value is held |
| SerialCuckoo2.SequentialCuckooSet.Size | cuckoo-serial2.h:141-149 | the count of buckets with an entry equals the number of values held |
| SerialCuckoo2.SequentialCuckooSet.Remove | cuckoo-serial2.h:109-125 | the new state and answer are those of `RemoveResult`, and the invariant is kept |
| SerialCuckoo2.SequentialCuckooSet.Insert | cuckoo-serial2.h:80-106 | the new state and answer are those of `AddResult` under the unguarded, clock-salted policy |
| SerialCuckoo2.SequentialCuckooSet.InsertPass | cuckoo-serial2.h:81-103 | one pass of `insert` is `Attempt` |
| SerialCuckoo2.SequentialCuckooSet.Displacements | cuckoo-serial2.h:86-100 | filling an empty bucket or swapping with its occupant, in `table[0]` then `table[1]`, ends as `Displace` says |
| SerialCuckoo2.SequentialCuckooSet.Resize | cuckoo-serial2.h:36-58 | the new state, and whether every nested `insert` answered, are those of `ResizeResult` with no guard and `salt2 = salt1 ^ 0x9e3779b9` |
| SerialCuckoo2.SequentialCuckooSet.RehashRow | cuckoo-serial2.h:51-56 | re-inserting one old row either moves the re-inserting loop to the next row or, at an `insert` that runs out of fuel, leaves the state where `ReinsertFrom` stops unfinished |
| SerialCuckoo2.SequentialCuckooSet.Populate | cuckoo-serial2.h:152-160 | the new state and answer are those of `PopulateUntil`: stop at the first `insert` that does not succeed |

## Left out

- Memory management (`new`, `delete`, the destructors) is left out: a slot is an `Option<T>`, and a deleted entry is recorded in the ghost multiset `discarded`.
- `std::hash`, `std::rand` and `std::time` are left out as code. They are a function and two streams given to the constructor.
- Integer widths are not modelled. `capacity`, `maxDisplacements`, `size()` and `populate`'s count are unbounded, so an `int` overflow when `capacity *= 2` wraps is not modelled. Salts and `std::hash` are 64-bit words, and their XOR is taken on 64 bits.
- A constructor with `initialCapacity <= 0` is left out (both constructors require a positive capacity). The code's `% capacity` would divide by zero, and a negative size makes `std::vector` throw.
- Termination of `add` is not modelled. A `fuel` parameter bounds the resize-and-retry passes of every `add`, nested ones included, and `Unfinished` reports that one of them ran out. Which fuel suffices, and whether any does, is left open, as the code gives no argument.
- CuckooSpec.AddAccounts: that every value lost was discarded is stated only when `add` answers. An `Unfinished` state can be a snapshot inside a resize whose old tables still hold values not yet re-added.
- CuckooSpec.ResizeAccounts: that every value not kept was discarded is stated only for a resize that finished, for the same reason.
- CuckooSpec.ReinsertAccounts: that every old value is held or discarded is stated only for a loop that finished, for the same reason.
- Only the effect of the `std::cerr` lines in new-serial-cuckoo.h:189 and cuckoo-serial2.h:155 is modelled. The logging itself is left out.
- `std::vector` copies (`auto oldTable = table`) are modelled as values. The tables are a `seq` field reassigned on every write, so aliasing between slot vectors is not modelled.
- The benchmark drivers, the concurrent and transactional variants and the commented-out old file are not part of this model.
- CuckooSpec.ResizeFollows: for cuckoo-serial2.h it states that capacity and rounds at least double. A re-insertion inside the unguarded `resize` may resize again, so exact doubling is not promised there.
