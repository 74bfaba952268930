/** The two-table layout shared by every sequential cuckoo set: which slot a key
    hashes to, which values a pair of tables holds, where a value is allowed to sit,
    and what one chain of displacements does to the tables. Everything here is a
    value; the classes in SerialCuckoo and SerialCuckoo2 are proved against it. */
module CuckooTables {

  datatype Option<T> = None | Some(value: T)

  /** `table[0]` and `table[1]`, one optional entry per slot. */
  type Tables<T> = seq<seq<Option<T>>>

  /** A 64-bit `size_t` word. */
  type Word = x: nat | x < 0x1_0000_0000_0000_0000

  function Pow2(n: nat): (r: nat)
    ensures r > 0
  {
    if n == 0 then 1 else 2 * Pow2(n - 1)
  }

  lemma {:induction false} Pow2Add(m: nat, n: nat)
    ensures Pow2(m + n) == Pow2(m) * Pow2(n)
  {
    if m > 0 {
      Pow2Add(m - 1, n);
    }
  }

  lemma Pow2Of16()
    ensures Pow2(16) == 0x1_0000
  {
    Pow2Add(8, 8);
  }

  lemma Pow2Of64()
    ensures Pow2(64) == 0x1_0000_0000_0000_0000
  {
    Pow2Of16();
    Pow2Add(16, 16);
    Pow2Add(32, 32);
  }

  /** Bitwise exclusive or of the low `bits` bits of `a` and `b`. */
  function XorBits(a: nat, b: nat, bits: nat): nat
  {
    if bits == 0 then 0
    else 2 * XorBits(a / 2, b / 2, bits - 1) + (if a % 2 == b % 2 then 0 else 1)
  }

  lemma {:induction false} XorBitsBelow(a: nat, b: nat, bits: nat)
    ensures XorBits(a, b, bits) < Pow2(bits)
  {
    if bits > 0 {
      XorBitsBelow(a / 2, b / 2, bits - 1);
    }
  }

  /** `a ^ b` on `size_t` words: the low 64 bits of the exclusive or. */
  function Xor(a: nat, b: nat): Word
  {
    XorBitsBelow(a, b, 64);
    Pow2Of64();
    XorBits(a, b, 64)
  }

  /** The constant the constructors (and the time-salted resize) XOR into the second salt. */
  const SALT_MASK: nat := 0x9e3779b9

  /** `(std::hash<T>{}(key) ^ seed) % capacity`, computed on `size_t`. */
  function Index(keyHash: Word, seed: Word, capacity: nat): (r: nat)
    requires capacity > 0
    ensures r < capacity
  {
    Xor(keyHash, seed) % capacity
  }

  /** The hashing state of one table generation: the key hash, both salts and the capacity. */
  datatype Hashing<!T> = Hashing(keyHash: T -> Word, salt1: Word, salt2: Word, capacity: nat)
  {
    function Salt(t: nat): Word
    {
      if t == 0 then salt1 else salt2
    }

    /** The one slot of table `t` where `key` may sit. */
    function Slot(t: nat, key: T): (r: nat)
      requires capacity > 0
      ensures r < capacity
    {
      Index(keyHash(key), Salt(t), capacity)
    }
  }

  ghost predicate Shaped<T>(tabs: Tables<T>, capacity: nat)
  {
    |tabs| == 2 && |tabs[0]| == capacity && |tabs[1]| == capacity
  }

  /** Slot `i` of table `t` is empty or holds a value whose slot of that table is `i`. */
  ghost predicate SlotOk<T>(tabs: Tables<T>, h: Hashing<T>, t: nat, i: nat)
    requires Shaped(tabs, h.capacity) && t < 2 && i < h.capacity
  {
    tabs[t][i].Some? ==> i == h.Slot(t, tabs[t][i].value)
  }

  /** Every stored value sits at its own slot of the table that holds it. */
  ghost predicate WellPlaced<T>(tabs: Tables<T>, h: Hashing<T>)
    requires Shaped(tabs, h.capacity)
  {
    forall t: nat, i: nat | t < 2 && i < h.capacity :: SlotOk(tabs, h, t, i)
  }

  /** The value held by one slot, as a multiset of zero or one element. */
  function Held<T>(e: Option<T>): multiset<T>
  {
    if e.Some? then multiset{e.value} else multiset{}
  }

  /** The values held by the first `n` slots of one table, with multiplicity. */
  function ValuesBelow<T>(s: seq<Option<T>>, n: nat): multiset<T>
    requires n <= |s|
  {
    if n == 0 then multiset{} else ValuesBelow(s, n - 1) + Held(s[n - 1])
  }

  /** The values held by the slots of one table, with multiplicity. */
  function Values<T>(s: seq<Option<T>>): multiset<T>
  {
    ValuesBelow(s, |s|)
  }

  /** The values held by both tables, with multiplicity. */
  function Stored<T>(tabs: Tables<T>): multiset<T>
    requires |tabs| == 2
  {
    Values(tabs[0]) + Values(tabs[1])
  }

  /** No value is held twice. */
  ghost predicate Distinct<T>(m: multiset<T>)
  {
    forall v | v in m :: m[v] == 1
  }

  /** The two-probe membership test of `contains`: it finds only values the tables hold. */
  function Probe<T(==)>(tabs: Tables<T>, h: Hashing<T>, v: T): (r: bool)
    requires Shaped(tabs, h.capacity) && h.capacity > 0
    ensures r ==> v in Stored(tabs)
  {
    var i, k := h.Slot(0, v), h.Slot(1, v);
    if tabs[0][i] == Some(v) then SlotHeld(tabs[0], |tabs[0]|, i); true
    else if tabs[1][k] == Some(v) then SlotHeld(tabs[1], |tabs[1]|, k); true
    else false
  }

  /** `tabs` with `e` written into slot `i` of table `t`. */
  function Put<T>(tabs: Tables<T>, t: nat, i: nat, e: T): (r: Tables<T>)
    requires t < |tabs| && i < |tabs[t]|
    ensures |r| == |tabs| && forall k | 0 <= k < |tabs| :: |r[k]| == |tabs[k]|
  {
    tabs[t := tabs[t][i := Some(e)]]
  }

  /** Where a displacement stops: every entry placed, or an entry still carried. */
  datatype Placement<T> =
    | Placed(tables: Tables<T>)
    | Carrying(tables: Tables<T>, carried: T)

  /** The displacement loop of `add`, one swap at a time: swap the carried entry into its slot
      of table `t`; stop with everything placed if that slot was empty, and otherwise carry the
      evicted entry on to the other table. `steps` swaps remain; when none do, the entry still
      carried is returned with the tables. */
  function Chain<T>(tabs: Tables<T>, h: Hashing<T>, carried: T, t: nat, steps: nat): (r: Placement<T>)
    requires Shaped(tabs, h.capacity) && h.capacity > 0 && t < 2
    ensures Shaped(r.tables, h.capacity)
    decreases steps
  {
    if steps == 0 then Carrying(tabs, carried)
    else
      var i := h.Slot(t, carried);
      var next: Tables<T> := Put(tabs, t, i, carried);
      match tabs[t][i]
      case None => Placed(next)
      case Some(evicted) => Chain(next, h, evicted, 1 - t, steps - 1)
  }

  /** `rounds` rounds of the displacement loop: each swaps into `table[0]` and then, if that
      evicted an entry, into `table[1]`. */
  function Displace<T>(tabs: Tables<T>, h: Hashing<T>, carried: T, rounds: nat): (r: Placement<T>)
    requires Shaped(tabs, h.capacity) && h.capacity > 0
    ensures Shaped(r.tables, h.capacity)
  {
    Chain(tabs, h, carried, 0, 2 * rounds)
  }

  /** One swap of a displacement chain, spelled out. */
  lemma ChainStep<T>(tabs: Tables<T>, h: Hashing<T>, carried: T, t: nat, steps: nat)
    requires Shaped(tabs, h.capacity) && h.capacity > 0 && t < 2 && steps > 0
    ensures var i := h.Slot(t, carried);
      Chain(tabs, h, carried, t, steps)
        == if tabs[t][i].None? then Placed(Put(tabs, t, i, carried))
           else Chain(Put(tabs, t, i, carried), h, tabs[t][i].value, 1 - t, steps - 1)
  {
  }

  /** A prefix holds no more of any value than a longer prefix. */
  lemma {:induction false} ValuesBelowCounts<T>(s: seq<Option<T>>, j: nat, n: nat)
    requires j <= n <= |s|
    ensures forall x :: ValuesBelow(s, j)[x] <= ValuesBelow(s, n)[x]
  {
    if j < n {
      ValuesBelowCounts(s, j, n - 1);
    }
  }

  lemma ValuesBelowIncluded<T>(s: seq<Option<T>>, j: nat, n: nat)
    requires j <= n <= |s|
    ensures ValuesBelow(s, j) <= ValuesBelow(s, n)
  {
    ValuesBelowCounts(s, j, n);
  }

  /** Writing slot `i` does not change what the slots before it hold. */
  lemma {:induction false} ValuesBelowFrame<T>(s: seq<Option<T>>, i: nat, e: Option<T>, n: nat)
    requires n <= i < |s|
    ensures ValuesBelow(s[i := e], n) == ValuesBelow(s, n)
  {
    if n > 0 {
      ValuesBelowFrame(s, i, e, n - 1);
      assert s[i := e][n - 1] == s[n - 1];
    }
  }

  /** Writing slot `i` replaces its value among the first `i + 1` slots. */
  lemma {:induction false} ValuesBelowUpdateAt<T>(s: seq<Option<T>>, i: nat, e: Option<T>)
    requires i < |s|
    ensures ValuesBelow(s[i := e], i + 1) + Held(s[i]) == ValuesBelow(s, i + 1) + Held(e)
  {
    var s' := s[i := e];
    calc {
      ValuesBelow(s', i + 1) + Held(s[i]);
      ValuesBelow(s', i) + Held(e) + Held(s[i]);
      { ValuesBelowFrame(s, i, e, i); }
      ValuesBelow(s, i) + Held(e) + Held(s[i]);
      ValuesBelow(s, i + 1) + Held(e);
    }
  }

  /** Writing slot `i` replaces its value among the first `n` slots, for every `n` past `i`. */
  lemma {:induction false} ValuesBelowUpdate<T>(s: seq<Option<T>>, i: nat, e: Option<T>, n: nat)
    requires i < n <= |s|
    ensures ValuesBelow(s[i := e], n) + Held(s[i]) == ValuesBelow(s, n) + Held(e)
  {
    if n == i + 1 {
      ValuesBelowUpdateAt(s, i, e);
    } else {
      var s' := s[i := e];
      assert s'[n - 1] == s[n - 1];
      assert ValuesBelow(s', n) == ValuesBelow(s', n - 1) + Held(s[n - 1]);
      assert ValuesBelow(s, n) == ValuesBelow(s, n - 1) + Held(s[n - 1]);
      ValuesBelowUpdate(s, i, e, n - 1);
      Rearrange(ValuesBelow(s', n - 1), Held(s[n - 1]), Held(s[i]), ValuesBelow(s, n - 1), Held(e));
    }
  }

  lemma Rearrange<T>(a: multiset<T>, b: multiset<T>, c: multiset<T>, d: multiset<T>, e: multiset<T>)
    requires a + c == d + e
    ensures a + b + c == d + b + e
  {
    calc {
      a + b + c;
      (a + c) + b;
      (d + e) + b;
      d + b + e;
    }
  }

  /** Writing `e` into slot `i` replaces what that slot held and nothing else. */
  lemma ValuesUpdate<T>(s: seq<Option<T>>, i: nat, e: Option<T>)
    requires i < |s|
    ensures Values(s[i := e]) + Held(s[i]) == Values(s) + Held(e)
  {
    ValuesBelowUpdate(s, i, e, |s|);
  }

  /** A slot that holds a value puts it among the values of every longer prefix. */
  lemma {:induction false} SlotHeld<T>(s: seq<Option<T>>, n: nat, k: nat)
    requires k < n <= |s| && s[k].Some?
    ensures s[k].value in ValuesBelow(s, n)
  {
    if k < n - 1 {
      SlotHeld(s, n - 1, k);
    }
  }

  /** A value held by a prefix sits in one of its slots. */
  lemma {:induction false} FindSlot<T>(s: seq<Option<T>>, n: nat, v: T) returns (k: nat)
    requires n <= |s| && v in ValuesBelow(s, n)
    ensures k < n && s[k] == Some(v)
  {
    if s[n - 1] == Some(v) {
      k := n - 1;
    } else {
      k := FindSlot(s, n - 1, v);
    }
  }

  /** A prefix of empty slots holds nothing. */
  lemma {:induction false} ValuesOfEmpty<T>(s: seq<Option<T>>, n: nat)
    requires n <= |s| && forall i | 0 <= i < |s| :: s[i] == None
    ensures ValuesBelow(s, n) == multiset{}
  {
    if n > 0 {
      ValuesOfEmpty(s, n - 1);
    }
  }

  /** Tables of empty slots are well placed and hold nothing. */
  lemma EmptyTables<T>(tabs: Tables<T>, h: Hashing<T>)
    requires Shaped(tabs, h.capacity)
    requires forall t, i | 0 <= t < 2 && 0 <= i < h.capacity :: tabs[t][i] == None
    ensures WellPlaced(tabs, h) && Stored(tabs) == multiset{} && Distinct(Stored(tabs))
  {
    ValuesOfEmpty(tabs[0], h.capacity);
    ValuesOfEmpty(tabs[1], h.capacity);
  }

  /** On well-placed tables the two probes of `contains` find a value exactly when it is stored. */
  lemma ProbeFindsStored<T>(tabs: Tables<T>, h: Hashing<T>, v: T)
    requires Shaped(tabs, h.capacity) && h.capacity > 0 && WellPlaced(tabs, h)
    ensures Probe(tabs, h, v) <==> v in Stored(tabs)
  {
    if v in Values(tabs[0]) {
      var i := FindSlot(tabs[0], |tabs[0]|, v);
      assert SlotOk(tabs, h, 0, i);
    }
    if v in Values(tabs[1]) {
      var i := FindSlot(tabs[1], |tabs[1]|, v);
      assert SlotOk(tabs, h, 1, i);
    }
    if tabs[0][h.Slot(0, v)] == Some(v) {
      SlotHeld(tabs[0], |tabs[0]|, h.Slot(0, v));
    }
    if tabs[1][h.Slot(1, v)] == Some(v) {
      SlotHeld(tabs[1], |tabs[1]|, h.Slot(1, v));
    }
  }

  /** Writing `e` into slot `i` of table `t` replaces the one value that slot held. */
  lemma StoredAfterPut<T>(tabs: Tables<T>, t: nat, i: nat, e: T)
    requires |tabs| == 2 && t < 2 && i < |tabs[t]|
    ensures Stored(Put(tabs, t, i, e)) + Held(tabs[t][i]) == Stored(tabs) + multiset{e}
  {
    if t == 0 {
      calc {
        Stored(Put(tabs, 0, i, e)) + Held(tabs[0][i]);
        { assert Put(tabs, 0, i, e)[1] == tabs[1]; }
        (Values(tabs[0][i := Some(e)]) + Held(tabs[0][i])) + Values(tabs[1]);
        { ValuesUpdate(tabs[0], i, Some(e)); }
        Values(tabs[0]) + Held(Some(e)) + Values(tabs[1]);
        Stored(tabs) + multiset{e};
      }
    } else {
      calc {
        Stored(Put(tabs, 1, i, e)) + Held(tabs[1][i]);
        { assert Put(tabs, 1, i, e)[0] == tabs[0]; }
        Values(tabs[0]) + (Values(tabs[1][i := Some(e)]) + Held(tabs[1][i]));
        { ValuesUpdate(tabs[1], i, Some(e)); }
        Values(tabs[0]) + (Values(tabs[1]) + Held(Some(e)));
        Stored(tabs) + multiset{e};
      }
    }
  }

  /** Writing `e` into its own slot keeps the tables well placed. */
  lemma PutAtSlotKeepsWellPlaced<T>(tabs: Tables<T>, h: Hashing<T>, t: nat, e: T)
    requires Shaped(tabs, h.capacity) && h.capacity > 0 && WellPlaced(tabs, h) && t < 2
    ensures Shaped(Put(tabs, t, h.Slot(t, e), e), h.capacity)
    ensures WellPlaced(Put(tabs, t, h.Slot(t, e), e), h)
  {
    var i := h.Slot(t, e);
    var r: Tables<T> := Put(tabs, t, i, e);
    forall u: nat, k: nat | u < 2 && k < h.capacity
      ensures SlotOk(r, h, u, k)
    {
      if u != t || k != i {
        assert r[u][k] == tabs[u][k];
        assert SlotOk(tabs, h, u, k);
      }
    }
  }

  /** A displacement chain moves entries only to their own slots. */
  lemma {:induction false} ChainKeepsWellPlaced<T>(tabs: Tables<T>, h: Hashing<T>, carried: T, t: nat, steps: nat)
    requires Shaped(tabs, h.capacity) && h.capacity > 0 && WellPlaced(tabs, h) && t < 2
    ensures WellPlaced(Chain(tabs, h, carried, t, steps).tables, h)
    decreases steps
  {
    if steps > 0 {
      var i := h.Slot(t, carried);
      PutAtSlotKeepsWellPlaced(tabs, h, t, carried);
      if tabs[t][i].Some? {
        ChainKeepsWellPlaced(Put(tabs, t, i, carried), h, tabs[t][i].value, 1 - t, steps - 1);
      }
    }
  }

  /** The entry a displacement chain still carries when it stops: none once it has placed everything. */
  function Leftover<T>(r: Placement<T>): multiset<T>
  {
    if r.Carrying? then multiset{r.carried} else multiset{}
  }

  /** A displacement chain creates and loses nothing: the tables afterwards, plus the entry
      still carried if the swaps ran out, hold what the tables held before plus the entry
      that started the chain. */
  lemma {:induction false} ChainKeepsEntries<T>(tabs: Tables<T>, h: Hashing<T>, carried: T, t: nat, steps: nat)
    requires Shaped(tabs, h.capacity) && h.capacity > 0 && t < 2
    ensures var r := Chain(tabs, h, carried, t, steps);
      Stored(r.tables) + Leftover(r) == Stored(tabs) + multiset{carried}
    decreases steps
  {
    if steps > 0 {
      var i := h.Slot(t, carried);
      StoredAfterPut(tabs, t, i, carried);
      if tabs[t][i].Some? {
        ChainKeepsEntries(Put(tabs, t, i, carried), h, tabs[t][i].value, 1 - t, steps - 1);
      }
    }
  }

  /** Added to a table pair with no repeated value, an absent value creates no repeat. */
  lemma AddKeepsDistinct<T>(m: multiset<T>, v: T, n: multiset<T>)
    requires Distinct(m) && v !in m && n <= m + multiset{v}
    ensures Distinct(n)
  {
    forall x
      ensures n[x] <= 1
    {
      assert n[x] <= (m + multiset{v})[x];
    }
  }

  /** `tabs` with slot `i` of table `t` emptied. */
  function Clear<T>(tabs: Tables<T>, t: nat, i: nat): (r: Tables<T>)
    requires t < |tabs| && i < |tabs[t]|
    ensures |r| == |tabs| && forall k | 0 <= k < |tabs| :: |r[k]| == |tabs[k]|
  {
    tabs[t := tabs[t][i := None]]
  }

  /** Emptying slot `i` of table `t` takes out the one value that slot held. */
  lemma StoredAfterClear<T>(tabs: Tables<T>, t: nat, i: nat)
    requires |tabs| == 2 && t < 2 && i < |tabs[t]|
    ensures Stored(Clear(tabs, t, i)) + Held(tabs[t][i]) == Stored(tabs)
  {
    if t == 0 {
      calc {
        Stored(Clear(tabs, 0, i)) + Held(tabs[0][i]);
        { assert Clear(tabs, 0, i)[1] == tabs[1]; }
        (Values(tabs[0][i := None]) + Held(tabs[0][i])) + Values(tabs[1]);
        { ValuesUpdate(tabs[0], i, None); }
        Stored(tabs);
      }
    } else {
      calc {
        Stored(Clear(tabs, 1, i)) + Held(tabs[1][i]);
        { assert Clear(tabs, 1, i)[0] == tabs[0]; }
        Values(tabs[0]) + (Values(tabs[1][i := None]) + Held(tabs[1][i]));
        { ValuesUpdate(tabs[1], i, None); }
        Stored(tabs);
      }
    }
  }

  /** Emptying a slot keeps the tables well placed. */
  lemma ClearKeepsWellPlaced<T>(tabs: Tables<T>, h: Hashing<T>, t: nat, i: nat)
    requires Shaped(tabs, h.capacity) && WellPlaced(tabs, h) && t < 2 && i < h.capacity
    ensures Shaped(Clear(tabs, t, i), h.capacity)
    ensures WellPlaced(Clear(tabs, t, i), h)
  {
    var r: Tables<T> := Clear(tabs, t, i);
    forall u: nat, k: nat | u < 2 && k < h.capacity
      ensures SlotOk(r, h, u, k)
    {
      if r[u][k].Some? {
        assert r[u][k] == tabs[u][k];
        assert SlotOk(tabs, h, u, k);
      }
    }
  }

  /** What emptying the slot that holds `v` does to well-placed tables with no repeated value. */
  lemma Cleared<T>(tabs: Tables<T>, h: Hashing<T>, t: nat, i: nat, v: T)
    requires Shaped(tabs, h.capacity) && WellPlaced(tabs, h) && Distinct(Stored(tabs))
    requires t < 2 && i < h.capacity && tabs[t][i] == Some(v)
    ensures Shaped(Clear(tabs, t, i), h.capacity) && WellPlaced(Clear(tabs, t, i), h)
    ensures Stored(Clear(tabs, t, i)) == Stored(tabs) - multiset{v}
    ensures v !in Stored(Clear(tabs, t, i)) && Distinct(Stored(Clear(tabs, t, i)))
  {
    ClearKeepsWellPlaced(tabs, h, t, i);
    StoredAfterClear(tabs, t, i);
    RemoveKeepsDistinct(Stored(tabs), v, Stored(Clear(tabs, t, i)));
  }

  /** Taking the one copy of `v` out of a table pair with no repeated value leaves no copy. */
  lemma RemoveKeepsDistinct<T>(m: multiset<T>, v: T, n: multiset<T>)
    requires Distinct(m) && n + multiset{v} == m
    ensures n == m - multiset{v} && v !in n && Distinct(n)
  {
    assert m[v] == 1;
    forall x
      ensures n[x] <= 1
    {
      assert n[x] <= m[x];
    }
  }

  /** The values held by the rows before row `t` of a table pair that are already re-added. */
  function Rows<T>(tabs: Tables<T>, t: nat): multiset<T>
    requires |tabs| == 2
  {
    if t == 0 then multiset{} else if t == 1 then Values(tabs[0]) else Stored(tabs)
  }

  /** The rows and the prefix of a row re-added so far are part of what the tables hold. */
  lemma {:induction false} PrefixWithin<T>(tabs: Tables<T>, t: nat, j: nat)
    requires |tabs| == 2 && t < 2 && j <= |tabs[t]|
    ensures Rows(tabs, t) + ValuesBelow(tabs[t], j) <= Stored(tabs)
  {
    ValuesBelowIncluded(tabs[t], j, |tabs[t]|);
  }

  /** A value that can be added to a part of a multiset without repeats is not already in that part. */
  lemma NotInPart<T>(part: multiset<T>, v: T, whole: multiset<T>)
    requires Distinct(whole) && part + multiset{v} <= whole
    ensures v !in part
  {
    assert whole[v] == 1;
  }

  /** Re-adding row `t` of `tabs` slot by slot: the next value is one no earlier slot held. */
  lemma NextRowValue<T>(tabs: Tables<T>, t: nat, j: nat)
    requires |tabs| == 2 && t < 2 && j < |tabs[t]| && Distinct(Stored(tabs))
    ensures Rows(tabs, t) + ValuesBelow(tabs[t], j + 1) == Rows(tabs, t) + ValuesBelow(tabs[t], j) + Held(tabs[t][j])
    ensures tabs[t][j].Some? ==> tabs[t][j].value !in Rows(tabs, t) + ValuesBelow(tabs[t], j)
  {
    PrefixWithin(tabs, t, j + 1);
    if tabs[t][j].Some? {
      NotInPart(Rows(tabs, t) + ValuesBelow(tabs[t], j), tabs[t][j].value, Stored(tabs));
    }
  }

  /** The bookkeeping of one re-add during a resize: what is stored stays within what has been
      re-added, and what has been re-added, together with what was discarded before, stays
      within what is stored together with what has been discarded since. */
  lemma AccountStep<T>(e: multiset<T>, p: multiset<T>, d0: multiset<T>, d: multiset<T>,
                       w: T, e2: multiset<T>, d2: multiset<T>)
    requires e <= p && p + d0 <= e + d
    requires e2 <= e + multiset{w} && e + multiset{w} + d <= e2 + d2
    ensures e2 <= p + multiset{w} && p + multiset{w} + d0 <= e2 + d2
  {
    forall x ensures e2[x] <= (p + multiset{w})[x] && (p + multiset{w} + d0)[x] <= (e2 + d2)[x] {
      assert e[x] <= p[x] && (p + d0)[x] <= (e + d)[x];
      assert e2[x] <= (e + multiset{w})[x] && (e + multiset{w} + d)[x] <= (e2 + d2)[x];
    }
  }

  /** The first half of `AccountStep`, for a re-add that ran out of fuel: what is stored stays
      within what has been re-added. */
  lemma AccountWithin<T>(e: multiset<T>, p: multiset<T>, w: T, e2: multiset<T>)
    requires e <= p && e2 <= e + multiset{w}
    ensures e2 <= p + multiset{w}
  {
    forall x ensures e2[x] <= (p + multiset{w})[x] {
      assert e[x] <= p[x];
      assert e2[x] <= (e + multiset{w})[x];
    }
  }

  /** What the displacement chain of one `add` of an absent value does to well-placed tables
      with no repeated value: they stay well placed and without repeats, and either the value
      is placed and nothing is lost, or the rounds run out and exactly the entry still carried
      is missing. */
  lemma DisplaceOutcome<T>(tabs: Tables<T>, h: Hashing<T>, v: T, rounds: nat)
    requires Shaped(tabs, h.capacity) && h.capacity > 0 && WellPlaced(tabs, h)
    requires Distinct(Stored(tabs)) && v !in Stored(tabs)
    ensures var r := Displace(tabs, h, v, rounds);
      && WellPlaced(r.tables, h) && Distinct(Stored(r.tables))
      && (r.Placed? ==> Stored(r.tables) == Stored(tabs) + multiset{v})
      && (r.Carrying? ==> Stored(r.tables) + multiset{r.carried} == Stored(tabs) + multiset{v})
      && (rounds == 0 ==> r == Carrying(tabs, v))
  {
    var r := Displace(tabs, h, v, rounds);
    ChainKeepsWellPlaced(tabs, h, v, 0, 2 * rounds);
    ChainKeepsEntries(tabs, h, v, 0, 2 * rounds);
    var after, left, before := Stored(r.tables), Leftover(r), Stored(tabs) + multiset{v};
    assert after <= before by {
      assert after + left == before;
    }
    AddKeepsDistinct(Stored(tabs), v, after);
  }

  /** The bookkeeping of one pass of `add` that did not resize: `e0` is what the tables held
      before, `e1` after the chain, which discarded `left`; `d0` and `d1` are the values
      discarded so far before and after. */
  lemma Unretried<T>(v: T, left: multiset<T>, e0: multiset<T>, e1: multiset<T>,
                     d0: multiset<T>, d1: multiset<T>)
    requires e1 + left == e0 + multiset{v} && d1 == d0 + left
    ensures e1 <= e0 + multiset{v} && e0 + multiset{v} + d0 <= e1 + d1
  {
    forall x ensures e1[x] <= (e0 + multiset{v})[x] && (e0 + multiset{v} + d0)[x] <= (e1 + d1)[x] {
      assert (e1 + left)[x] == (e0 + multiset{v})[x];
    }
  }

  /** The bookkeeping of an `add` whose chain discarded `left`, then resized and retried:
      `e2` is what the tables held after the resize and `e3` after the retry, `d2` and `d3`
      the values discarded so far at those points. */
  lemma Retry<T>(v: T, left: multiset<T>, e0: multiset<T>, e1: multiset<T>, e2: multiset<T>, e3: multiset<T>,
                 d0: multiset<T>, d1: multiset<T>, d2: multiset<T>, d3: multiset<T>)
    requires e1 + left == e0 + multiset{v} && d1 == d0 + left
    requires e2 <= e1 && e1 + d1 <= e2 + d2
    requires v in e2 ==> e3 == e2 && d3 == d2
    requires v !in e2 ==> e3 <= e2 + multiset{v} && e2 + multiset{v} + d2 <= e3 + d3
    ensures e3 <= e0 + multiset{v} && e0 + multiset{v} + d0 <= e3 + d3
  {
    forall x ensures e3[x] <= (e0 + multiset{v})[x] && (e0 + multiset{v} + d0)[x] <= (e3 + d3)[x] {
      assert (e1 + left)[x] == (e0 + multiset{v})[x];
      assert e2[x] <= e1[x];
      assert (e1 + d1)[x] <= (e2 + d2)[x];
      if v !in e2 {
        assert e3[x] <= (e2 + multiset{v})[x];
        assert (e2 + multiset{v} + d2)[x] <= (e3 + d3)[x];
      }
    }
  }

  /** The first half of `Retry`, for a retry that ran out of fuel: nothing but `v` is created. */
  lemma RetryWithin<T>(v: T, left: multiset<T>, e0: multiset<T>, e1: multiset<T>, e2: multiset<T>, e3: multiset<T>)
    requires e1 + left == e0 + multiset{v} && e2 <= e1
    requires v in e2 ==> e3 == e2
    requires v !in e2 ==> e3 <= e2 + multiset{v}
    ensures e3 <= e0 + multiset{v}
  {
    forall x ensures e3[x] <= (e0 + multiset{v})[x] {
      assert (e1 + left)[x] == (e0 + multiset{v})[x];
      assert e2[x] <= e1[x];
      if v !in e2 {
        assert e3[x] <= (e2 + multiset{v})[x];
      }
    }
  }

  /** What one step of a bulk add may leave: within what was there, the one value added and
      what the later steps add. */
  lemma WithinBoth<T>(e0: multiset<T>, v: T, e1: multiset<T>, rest: multiset<T>, e2: multiset<T>)
    requires e1 <= e0 + multiset{v} && e2 <= e1 + rest
    ensures e2 <= e0 + (multiset{v} + rest)
  {
    forall x ensures e2[x] <= (e0 + (multiset{v} + rest))[x] {
      assert e1[x] <= (e0 + multiset{v})[x];
      assert e2[x] <= (e1 + rest)[x];
    }
  }
}
