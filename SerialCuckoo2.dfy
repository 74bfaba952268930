/** `SequentialCuckooSet<T>`, the sequential cuckoo hash set of cuckoo-serial2.h. It keeps
    the same two tables and the same displacement rounds as `CuckooSequentialSet`, written
    with `std::swap` on the slot instead of a `swap` helper. Its `resize` has no guard
    against running inside another `resize`, takes its first salt from `std::time` and
    derives the second as `salt1 ^ 0x9e3779b9`; its `populate` stops at the first `insert`
    that fails. Each method is proved to do exactly what the matching function of
    CuckooSpec does to `State()`. */
module SerialCuckoo2 {
  import opened CuckooTables
  import opened CuckooSpec

  class SequentialCuckooSet<T(==)> {
    /** `std::hash<T>`, as a 64-bit `size_t`. */
    const keyHash: T -> Word
    /** The successive readings of `std::time`, which the constructor and `resize` take
        their salts from. */
    const clock: nat -> Word
    /** How many readings of `std::time` have been taken. */
    var readings: nat

    var capacity: nat
    var maxDisplacements: nat
    var salt1: Word
    var salt2: Word
    /** `table[0]` and `table[1]`, one `Bucket` per slot; an empty bucket is `None`. */
    var table: Tables<T>

    /** Every value an exhausted displacement chain has thrown away (`delete displaced`). */
    ghost var discarded: multiset<T>

    /** The whole set as a value, with an unguarded `resize` that derives `salt2`. */
    ghost function State(): SetState<T>
      reads this
    {
      SetState(keyHash, clock, Policy(false, true), table, capacity, maxDisplacements, false,
               salt1, salt2, readings, discarded)
    }

    /** Two tables of `capacity` slots each. */
    ghost predicate Valid()
      reads this
    {
      State().Sane()
    }

    /** The constructor (default capacity 16): two tables of `initialCapacity` empty buckets,
        half as many rounds, and salts from two readings of `std::time`. */
    constructor (keyHash: T -> Word, clock: nat -> Word, initialCapacity: nat := 16)
      requires initialCapacity > 0
      ensures Valid() && Inv(State())
      ensures this.keyHash == keyHash && this.clock == clock && readings == 2
      ensures capacity == initialCapacity && maxDisplacements == initialCapacity / 2
      ensures salt1 == clock(0) && salt2 == Xor(clock(1), SALT_MASK)
      ensures State().Elements() == multiset{} && discarded == multiset{}
    {
      this.keyHash := keyHash;
      this.clock := clock;
      readings := 2;
      capacity := initialCapacity;
      maxDisplacements := initialCapacity / 2;
      salt1 := clock(0);
      salt2 := Xor(clock(1), SALT_MASK);
      table := [seq(initialCapacity, _ => None), seq(initialCapacity, _ => None)];
      discarded := multiset{};
      new;
      EmptyTables(table, State().Hashes());
    }

    /** `hash(key, seed)`: a slot of the current tables. */
    function Hash(key: T, seed: Word): (r: nat)
      reads this
      requires capacity > 0
      ensures r < capacity
    {
      Index(keyHash(key), seed, capacity)
    }

    /** `hash1(key)`: the slot of `table[0]` where `key` may sit. */
    function Hash1(key: T): (r: nat)
      reads this
      requires capacity > 0
      ensures r < capacity && r == State().Hashes().Slot(0, key)
    {
      Hash(key, salt1)
    }

    /** `hash2(key)`: the slot of `table[1]` where `key` may sit. */
    function Hash2(key: T): (r: nat)
      reads this
      requires capacity > 0
      ensures r < capacity && r == State().Hashes().Slot(1, key)
    {
      Hash(key, salt2)
    }

    /** `contains(val)`: the two probes; on a set that keeps its invariant they find exactly
        the values it holds. */
    method Contains(val: T) returns (found: bool)
      requires Valid()
      ensures found == Probe(table, State().Hashes(), val)
      ensures Inv(State()) ==> (found <==> val in State().Elements())
    {
      if Inv(State()) {
        ProbeFindsStored(table, State().Hashes(), val);
      }
      var h1 := Hash1(val);
      if table[0][h1] == Some(val) {
        return true;
      }
      var h2 := Hash2(val);
      if table[1][h2] == Some(val) {
        return true;
      }
      return false;
    }

    /** `size()`: the number of buckets with an entry, which is the number of values held. */
    method Size() returns (count: nat)
      requires Valid()
      ensures count == |State().Elements()|
    {
      count := 0;
      for t := 0 to 2
        invariant count == |Rows(table, t)|
      {
        for j := 0 to capacity
          invariant count == |Rows(table, t) + ValuesBelow(table[t], j)|
        {
          if table[t][j].Some? {
            count := count + 1;
          }
        }
      }
    }

    /** `remove(val)`: empty the bucket of `table[0]`, else of `table[1]`, that holds `val`,
        and answer whether there was one. */
    method Remove(val: T) returns (removed: bool)
      requires Valid()
      modifies this
      ensures Valid()
      ensures var r := RemoveResult(old(State()), val); State() == r.state && removed == r.removed
      ensures Inv(old(State())) ==> Inv(State())
    {
      if Inv(State()) {
        RemoveAnswers(State(), val);
      }
      var h1 := Hash1(val);
      if table[0][h1] == Some(val) {
        table := Clear(table, 0, h1);
        return true;
      }
      var h2 := Hash2(val);
      if table[1][h2] == Some(val) {
        table := Clear(table, 1, h2);
        return true;
      }
      return false;
    }

    /** `insert(val)`, with at most `fuel` resize-and-retry passes after the first, in this
        call and in every `insert` its resizes make; it stops where one of them runs out. */
    method Insert(val: T, fuel: nat) returns (outcome: AddOutcome)
      requires Valid()
      modifies this
      ensures Valid()
      ensures var r := AddResult(old(State()), val, fuel); State() == r.state && outcome == r.outcome
      decreases fuel, 1
    {
      outcome := InsertPass(val);
      if outcome != Unfinished || fuel == 0 {
        return;
      }
      var finished := Resize(fuel - 1);
      if !finished {
        return Unfinished;
      }
      outcome := Insert(val, fuel - 1);
    }

    /** One pass of `insert(val)`, up to the `resize` after an exhausted chain: nothing if
        `val` is present, else the displacement loop, and the entry still carried when the
        rounds run out is thrown away. */
    method InsertPass(val: T) returns (outcome: AddOutcome)
      requires Valid()
      modifies this
      ensures Valid()
      ensures var r := Attempt(old(State()), val); State() == r.state && outcome == r.outcome
    {
      var present := Contains(val);
      if present {
        return Rejected;
      }
      var placed, displaced := Displacements(val);
      if placed {
        return Added;
      }
      discarded := discarded + multiset{displaced};
      return Unfinished;
    }

    /** The displacement loop of `insert`: up to `maxDisplacements` rounds; each fills the
        carried entry's bucket of `table[0]` if it is empty and otherwise swaps the entry with
        its occupant, then does the same in `table[1]` for the evicted entry. */
    method Displacements(val: T) returns (placed: bool, displaced: T)
      requires Valid()
      modifies this
      ensures Valid() && State() == old(State()).(table := table)
      ensures Displace(old(table), old(State()).Hashes(), val, maxDisplacements)
        == if placed then Placed(table) else Carrying(table, displaced)
    {
      ghost var st := State();
      ghost var h := st.Hashes();
      ghost var final := Displace(table, h, val, maxDisplacements);
      displaced := val;
      var i := 0;
      while i < maxDisplacements
        invariant i <= maxDisplacements && Valid()
        invariant State() == st.(table := table)
        invariant Chain(table, h, displaced, 0, 2 * (maxDisplacements - i)) == final
      {
        ChainStep(table, h, displaced, 0, 2 * (maxDisplacements - i));
        var h1 := Hash1(displaced);
        var evicted := table[0][h1];
        Store(0, h1, displaced);
        if evicted == None {
          return true, displaced;
        }
        displaced := evicted.value;
        ChainStep(table, h, displaced, 1, 2 * (maxDisplacements - i) - 1);
        var h2 := Hash2(displaced);
        evicted := table[1][h2];
        Store(1, h2, displaced);
        if evicted == None {
          return true, displaced;
        }
        displaced := evicted.value;
        i := i + 1;
      }
      return false, displaced;
    }

    /** One bucket write of the displacement loop: bucket `i` of `table[t]` now holds `e`. */
    method Store(t: nat, i: nat, e: T)
      requires Valid() && t < 2 && i < capacity
      modifies this
      ensures Valid() && table == Put(old(table), t, i, e) && State() == old(State()).(table := table)
    {
      table := Put(table, t, i, e);
    }

    /** `resize()`: double the tables and the rounds, take `salt1` from `std::time`, derive
        `salt2` from it, and re-insert every value of the old tables, `table[0]` first, slot by
        slot. A re-insertion may resize again. `finished` is false when a re-insertion ran out
        of fuel. */
    method Resize(fuel: nat) returns (finished: bool)
      requires Valid()
      modifies this
      ensures Valid() && ResizeResult(old(State()), fuel) == Resized(State(), finished)
      decreases fuel, 3
    {
      ghost var st := State();
      var oldCapacity := capacity;
      capacity := 2 * capacity;
      maxDisplacements := 2 * maxDisplacements;
      var oldTable := table;
      table := [seq(capacity, _ => None), seq(capacity, _ => None)];
      salt1 := clock(readings);
      salt2 := Xor(salt1, SALT_MASK);
      readings := readings + 1;
      assert State() == Regrown(st);
      ghost var final := ReinsertFrom(State(), oldTable, 0, 0, fuel);
      for i := 0 to 2
        invariant Valid() && Shaped(oldTable, oldCapacity)
        invariant ReinsertFrom(State(), oldTable, i, 0, fuel) == final
      {
        finished := RehashRow(oldTable, i, oldCapacity, fuel);
        if !finished {
          return;
        }
      }
      finished := true;
    }

    /** The inner loop of `resize`: re-insert every value of row `i` of the old tables, up to
        an `insert` that runs out of fuel. */
    method RehashRow(oldTable: Tables<T>, i: nat, oldCapacity: nat, fuel: nat) returns (finished: bool)
      requires Valid() && Shaped(oldTable, oldCapacity) && i < 2
      modifies this
      ensures Valid()
      ensures finished ==> ReinsertFrom(State(), oldTable, i + 1, 0, fuel) == ReinsertFrom(old(State()), oldTable, i, 0, fuel)
      ensures !finished ==> ReinsertFrom(old(State()), oldTable, i, 0, fuel) == Resized(State(), false)
      decreases fuel, 2
    {
      ghost var final := ReinsertFrom(State(), oldTable, i, 0, fuel);
      for j := 0 to oldCapacity
        invariant Valid() && ReinsertFrom(State(), oldTable, i, j, fuel) == final
      {
        ReinsertNext(State(), oldTable, i, j, fuel);
        if oldTable[i][j].Some? {
          var outcome := Insert(oldTable[i][j].value, fuel);
          if outcome == Unfinished {
            return false;
          }
        }
      }
      return true;
    }

    /** `populate(elements)`: `insert` the values in order and stop at the first call that
        does not succeed; `Added` stands for the final `true`. */
    method Populate(elements: seq<T>, fuel: nat) returns (outcome: AddOutcome)
      requires Valid()
      modifies this
      ensures Valid()
      ensures var r := PopulateUntil(old(State()), elements, fuel); State() == r.state && outcome == r.outcome
    {
      ghost var st := State();
      for k := 0 to |elements|
        invariant Valid()
        invariant PopulateUntil(st, elements, fuel) == PopulateUntil(State(), elements[k..], fuel)
      {
        assert elements[k..][1..] == elements[k + 1..];
        outcome := Insert(elements[k], fuel);
        if outcome != Added {
          return;
        }
      }
      return Added;
    }
  }
}
