/** `CuckooSequentialSet<T>`, the sequential cuckoo hash set of src/header/serial-cuckoo.h.
    src/serial-cuckoo.h and new-serial-cuckoo.h hold the same class (the first gives the
    constructor a default capacity of 16, the second names `add` `insert` and logs rejected
    values in `populate`), so this one class models all three.

    The set keeps two tables of `capacity` slots. A value lives in `table[0]` at
    `hash1(value)` or in `table[1]` at `hash2(value)`. `add` kicks values back and forth
    between the two tables for up to `maxDisplacements` rounds; when the rounds run out it
    throws away the value it is still carrying, doubles both tables under fresh salts from
    `std::rand()`, re-adds every stored value and tries again. Each method is proved to do
    exactly what the matching function of CuckooSpec does to `State()`. */
module SerialCuckoo {
  import opened CuckooTables
  import opened CuckooSpec

  class CuckooSequentialSet<T(==)> {
    /** `std::hash<T>`, as a 64-bit `size_t`. */
    const keyHash: T -> Word
    /** The successive results of `std::rand()`, which `resize` draws its salts from. */
    const rand: nat -> Word
    /** How many results of `std::rand()` have been drawn. */
    var draws: nat

    var capacity: nat
    var maxDisplacements: nat
    var resizing: bool
    var salt1: Word
    var salt2: Word
    /** `table[0]` and `table[1]`; `std::vector` has value semantics, so the copy `resize`
        takes of it is a value too. */
    var table: Tables<T>

    /** Every value an exhausted displacement chain has thrown away (`delete temp`). */
    ghost var discarded: multiset<T>

    /** The whole set as a value, with a guarded `resize` that draws both salts. */
    ghost function State(): SetState<T>
      reads this
    {
      SetState(keyHash, rand, Policy(true, false), table, capacity, maxDisplacements, resizing,
               salt1, salt2, draws, discarded)
    }

    /** Two tables of `capacity` slots each. */
    ghost predicate Valid()
      reads this
    {
      State().Sane()
    }

    /** The constructor: two tables of `initialCapacity` empty slots, half as many rounds, and
        salts from two readings of `std::time`. */
    constructor (keyHash: T -> Word, time1: Word, time2: Word, rand: nat -> Word, initialCapacity: nat := 16)
      requires initialCapacity > 0
      ensures Valid() && Inv(State())
      ensures this.keyHash == keyHash && this.rand == rand && draws == 0
      ensures capacity == initialCapacity && maxDisplacements == initialCapacity / 2
      ensures salt1 == time1 && salt2 == Xor(time2, SALT_MASK) && !resizing
      ensures State().Elements() == multiset{} && discarded == multiset{}
    {
      this.keyHash := keyHash;
      this.rand := rand;
      draws := 0;
      capacity := initialCapacity;
      maxDisplacements := initialCapacity / 2;
      resizing := false;
      salt1 := time1;
      salt2 := Xor(time2, SALT_MASK);
      table := [seq(initialCapacity, _ => None), seq(initialCapacity, _ => None)];
      discarded := multiset{};
      new;
      EmptyTables(table, State().Hashes());
    }

    /** `hash(key, seed)`: a slot of the current tables. */
    function Hash(key: T, seed: Word): (r: nat)
      reads this
      requires capacity > 0
      ensures r < capacity
    {
      Index(keyHash(key), seed, capacity)
    }

    /** `hash1(key)`: the slot of `table[0]` where `key` may sit. */
    function Hash1(key: T): (r: nat)
      reads this
      requires capacity > 0
      ensures r < capacity && r == State().Hashes().Slot(0, key)
    {
      Hash(key, salt1)
    }

    /** `hash2(key)`: the slot of `table[1]` where `key` may sit. */
    function Hash2(key: T): (r: nat)
      reads this
      requires capacity > 0
      ensures r < capacity && r == State().Hashes().Slot(1, key)
    {
      Hash(key, salt2)
    }

    /** `swap(t, idx, entry)`: `entry` goes into slot `idx` of table `t`, whose former content
        comes back; no other slot and nothing else changes. */
    method Swap(t: nat, idx: nat, entry: T) returns (prev: Option<T>)
      requires Valid() && t < 2 && idx < capacity
      modifies this
      ensures Valid() && State() == old(State()).(table := table)
      ensures prev == old(table[t][idx]) && table == Put(old(table), t, idx, entry)
      ensures table[t][idx] == Some(entry)
      ensures forall u, k | 0 <= u < 2 && 0 <= k < capacity && (u != t || k != idx) :: table[u][k] == old(table[u][k])
    {
      prev := table[t][idx];
      table := Put(table, t, idx, entry);
    }

    /** `contains(value)`: the two probes; on a set that keeps its invariant they find
        exactly the values it holds. */
    method Contains(value: T) returns (found: bool)
      requires Valid()
      ensures found == Probe(table, State().Hashes(), value)
      ensures Inv(State()) ==> (found <==> value in State().Elements())
    {
      if Inv(State()) {
        ProbeFindsStored(table, State().Hashes(), value);
      }
      var h1 := Hash1(value);
      if table[0][h1] == Some(value) {
        return true;
      }
      var h2 := Hash2(value);
      if table[1][h2] == Some(value) {
        return true;
      }
      return false;
    }

    /** `size()`: the number of occupied slots, which is the number of values held. */
    method Size() returns (count: nat)
      requires Valid()
      ensures count == |State().Elements()|
    {
      count := 0;
      for t := 0 to 2
        invariant count == |Rows(table, t)|
      {
        for j := 0 to capacity
          invariant count == |Rows(table, t) + ValuesBelow(table[t], j)|
        {
          if table[t][j].Some? {
            count := count + 1;
          }
        }
      }
    }

    /** `remove(value)`: empty the slot of `table[0]`, else of `table[1]`, that holds
        `value`, and answer whether there was one. */
    method Remove(value: T) returns (removed: bool)
      requires Valid()
      modifies this
      ensures Valid()
      ensures var r := RemoveResult(old(State()), value); State() == r.state && removed == r.removed
      ensures Inv(old(State())) ==> Inv(State())
    {
      if Inv(State()) {
        RemoveAnswers(State(), value);
      }
      var h1 := Hash1(value);
      if table[0][h1] == Some(value) {
        table := Clear(table, 0, h1);
        return true;
      }
      var h2 := Hash2(value);
      if table[1][h2] == Some(value) {
        table := Clear(table, 1, h2);
        return true;
      }
      return false;
    }

    /** `add(value)` (`insert` in new-serial-cuckoo.h), with at most `fuel` resize-and-retry
        passes after the first, in this call and in every `add` its resizes make; it stops
        where one of them runs out. */
    method Add(value: T, fuel: nat) returns (outcome: AddOutcome)
      requires Valid()
      modifies this
      ensures Valid()
      ensures var r := AddResult(old(State()), value, fuel); State() == r.state && outcome == r.outcome
      decreases fuel, 1
    {
      outcome := AddPass(value);
      if outcome != Unfinished || fuel == 0 {
        return;
      }
      var finished := Resize(fuel - 1);
      if !finished {
        return Unfinished;
      }
      outcome := Add(value, fuel - 1);
    }

    /** One pass of `add(value)`, up to the `resize` after an exhausted chain: nothing if
        `value` is present, else the displacement loop, and the entry still carried when the
        rounds run out is thrown away. */
    method AddPass(value: T) returns (outcome: AddOutcome)
      requires Valid()
      modifies this
      ensures Valid()
      ensures var r := Attempt(old(State()), value); State() == r.state && outcome == r.outcome
    {
      var present := Contains(value);
      if present {
        return Rejected;
      }
      var placed, temp := Displacements(value);
      if placed {
        return Added;
      }
      discarded := discarded + multiset{temp};
      return Unfinished;
    }

    /** The displacement loop of `add`: up to `maxDisplacements` rounds, each swapping the
        carried entry into its slot of `table[0]` and then the evicted one into its slot of
        `table[1]`, until a swap finds an empty slot. */
    method Displacements(value: T) returns (placed: bool, temp: T)
      requires Valid()
      modifies this
      ensures Valid() && State() == old(State()).(table := table)
      ensures Displace(old(table), old(State()).Hashes(), value, maxDisplacements)
        == if placed then Placed(table) else Carrying(table, temp)
    {
      ghost var st := State();
      ghost var h := st.Hashes();
      ghost var final := Displace(table, h, value, maxDisplacements);
      temp := value;
      var i := 0;
      while i < maxDisplacements
        invariant i <= maxDisplacements && Valid()
        invariant State() == st.(table := table)
        invariant Chain(table, h, temp, 0, 2 * (maxDisplacements - i)) == final
      {
        ChainStep(table, h, temp, 0, 2 * (maxDisplacements - i));
        var h1 := Hash1(temp);
        var prev := Swap(0, h1, temp);
        if prev == None {
          return true, temp;
        }
        temp := prev.value;
        ChainStep(table, h, temp, 1, 2 * (maxDisplacements - i) - 1);
        var h2 := Hash2(temp);
        prev := Swap(1, h2, temp);
        if prev == None {
          return true, temp;
        }
        temp := prev.value;
        i := i + 1;
      }
      return false, temp;
    }

    /** `resize()`: nothing while a resize is under way; otherwise double the tables and the
        rounds, draw two new salts and re-add every value of the old tables, `table[0]`
        first, slot by slot. `finished` is false when a re-add ran out of fuel. */
    method Resize(fuel: nat) returns (finished: bool)
      requires Valid()
      modifies this
      ensures Valid() && ResizeResult(old(State()), fuel) == Resized(State(), finished)
      decreases fuel, 3
    {
      ghost var st := State();
      if resizing {
        return true;
      }
      resizing := true;
      var oldCap := capacity;
      capacity := 2 * capacity;
      maxDisplacements := 2 * maxDisplacements;
      var oldTable := table;
      table := [seq(capacity, _ => None), seq(capacity, _ => None)];
      salt1 := rand(draws);
      salt2 := rand(draws + 1);
      draws := draws + 2;
      assert State() == Regrown(st);
      ghost var final := ReinsertFrom(State(), oldTable, 0, 0, fuel);
      for i := 0 to 2
        invariant Valid() && Shaped(oldTable, oldCap)
        invariant ReinsertFrom(State(), oldTable, i, 0, fuel) == final
      {
        finished := RehashRow(oldTable, i, oldCap, fuel);
        if !finished {
          return;
        }
      }
      resizing := false;
      finished := true;
    }

    /** The inner loop of `resize`: re-add every value of row `i` of the old tables, up to an
        `add` that runs out of fuel. */
    method RehashRow(oldTable: Tables<T>, i: nat, oldCap: nat, fuel: nat) returns (finished: bool)
      requires Valid() && Shaped(oldTable, oldCap) && i < 2
      modifies this
      ensures Valid()
      ensures finished ==> ReinsertFrom(State(), oldTable, i + 1, 0, fuel) == ReinsertFrom(old(State()), oldTable, i, 0, fuel)
      ensures !finished ==> ReinsertFrom(old(State()), oldTable, i, 0, fuel) == Resized(State(), false)
      decreases fuel, 2
    {
      ghost var final := ReinsertFrom(State(), oldTable, i, 0, fuel);
      for j := 0 to oldCap
        invariant Valid() && ReinsertFrom(State(), oldTable, i, j, fuel) == final
      {
        ReinsertNext(State(), oldTable, i, j, fuel);
        if oldTable[i][j].Some? {
          var outcome := Add(oldTable[i][j].value, fuel);
          if outcome == Unfinished {
            return false;
          }
        }
      }
      return true;
    }

    /** `populate(list)`: `add` every value in order and count the calls that returned
        `true`; `finished` is false when an `add` ran out of fuel, where this stops. */
    method Populate(list: seq<T>, fuel: nat) returns (added: nat, finished: bool)
      requires Valid()
      modifies this
      ensures Valid()
      ensures PopulateResult(old(State()), list, fuel) == Populated(State(), added, finished)
      ensures Inv(old(State())) ==> Inv(State())
    {
      ghost var st := State();
      if Inv(st) {
        PopulateKeepsInv(st, list, fuel);
      }
      added := 0;
      for k := 0 to |list|
        invariant Valid()
        invariant var rest := PopulateResult(State(), list[k..], fuel);
          PopulateResult(st, list, fuel) == Populated(rest.state, added + rest.count, rest.finished)
      {
        assert list[k..][1..] == list[k + 1..];
        var outcome := Add(list[k], fuel);
        if outcome == Unfinished {
          return added, false;
        }
        if outcome == Added {
          added := added + 1;
        }
      }
      finished := true;
    }
  }
}
