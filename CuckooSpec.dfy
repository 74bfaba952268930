/** What one sequential cuckoo set does, as functions on its whole state: `add` (with its
    displacement chain, its resize and its retry), `resize` (with its re-adding of every stored
    value), and the two versions of `populate`. The two source versions differ only in how
    `resize` behaves, which `Policy` records. The classes in SerialCuckoo and SerialCuckoo2 are
    proved equal to these functions; the lemmas here state what the functions promise. */
module CuckooSpec {
  import opened CuckooTables

  /** What one call of `add` comes to: `Added` and `Rejected` are its `true` and `false`;
      `Unfinished` means that the call, or an `add` nested in one of its resizes, was still
      going when its fuel ran out. The state that comes with `Unfinished` is where the code
      stands at that moment. */
  datatype AddOutcome = Added | Rejected | Unfinished

  /** How `resize` behaves. `guarded`: a `resizing` flag turns a resize started while another
      is re-adding values into a no-op. `derivedSalt`: the new `salt2` is `salt1 ^ SALT_MASK`
      and one value is drawn from the salt source; otherwise both salts are drawn. */
  datatype Policy = Policy(guarded: bool, derivedSalt: bool)

  /** Everything a set holds. `source` is what `resize` draws its salts from (`std::rand()` or
      `std::time()`), `draws` how many values it has drawn; `discarded` is every value an
      exhausted displacement chain has thrown away. */
  datatype SetState<!T> = SetState(
    keyHash: T -> Word, source: nat -> Word, policy: Policy,
    table: Tables<T>, capacity: nat, maxDisplacements: nat, resizing: bool,
    salt1: Word, salt2: Word, draws: nat, discarded: multiset<T>)
  {
    function Hashes(): Hashing<T>
    {
      Hashing(keyHash, salt1, salt2, capacity)
    }

    ghost predicate Sane()
    {
      capacity > 0 && Shaped(table, capacity)
    }

    function Elements(): multiset<T>
      requires |table| == 2
    {
      Stored(table)
    }
  }

  /** The invariant every operation keeps: every value at its own slot, none held twice. */
  ghost predicate Inv<T>(st: SetState<T>)
  {
    st.Sane() && WellPlaced(st.table, st.Hashes()) && Distinct(st.Elements())
  }

  datatype Step<!T> = Step(state: SetState<T>, outcome: AddOutcome)

  /** One pass of `add(v)`: if `contains(v)`, nothing changes (`Rejected`). Otherwise the
      displacement chain runs for `maxDisplacements` rounds; if it places everything, `v` is
      added. If not, the entry still carried is thrown away and the pass is `Unfinished`. */
  function Attempt<T(==)>(st: SetState<T>, v: T): (r: Step<T>)
    requires st.Sane()
    ensures r.state.Sane()
    ensures r.state == st.(table := r.state.table, discarded := r.state.discarded)
  {
    var h := st.Hashes();
    if Probe(st.table, h, v) then Step(st, Rejected)
    else
      match Displace(st.table, h, v, st.maxDisplacements)
      case Placed(tabs) => Step(st.(table := tabs), Added)
      case Carrying(tabs, carried) =>
        Step(st.(table := tabs, discarded := st.discarded + multiset{carried}), Unfinished)
  }

  /** `add(v)`: a pass that does not finish is followed by `resize` and `add(v)` all over
      again. `fuel` bounds how many times that may happen, here and in every `add` that a
      resize runs; when a resize ran out of fuel, so has this call. */
  function AddResult<T(==)>(st: SetState<T>, v: T, fuel: nat): (r: Step<T>)
    requires st.Sane()
    ensures r.state.Sane()
    decreases fuel, 1
  {
    var first := Attempt(st, v);
    if first.outcome == Unfinished && fuel > 0 then
      var next := Retried(st, v, fuel);
      if next.finished then AddResult(next.state, v, fuel - 1) else Step(next.state, Unfinished)
    else first
  }

  /** Where a `resize` (or its re-adding loop) stands: `finished` is false when one of the
      `add` calls it ran ran out of fuel, and `state` is then the set at that moment. */
  datatype Resized<!T> = Resized(state: SetState<T>, finished: bool)

  /** The set that `add(v)` starts over on after a pass that did not finish: that pass's set,
      resized. */
  function Retried<T(==)>(st: SetState<T>, v: T, fuel: nat): (r: Resized<T>)
    requires st.Sane() && fuel > 0
    ensures r.state.Sane()
    decreases fuel, 0
  {
    ResizeResult(Attempt(st, v).state, fuel - 1)
  }

  /** The start of `resize`: both tables twice as long and empty, twice the rounds, new salts. */
  function Regrown<T>(st: SetState<T>): (r: SetState<T>)
    ensures Shaped(r.table, r.capacity) && r.capacity == 2 * st.capacity
    ensures forall t, i | 0 <= t < 2 && 0 <= i < r.capacity :: r.table[t][i] == None
  {
    var capacity := 2 * st.capacity;
    var salt1 := st.source(st.draws);
    st.(table := [seq(capacity, _ => None), seq(capacity, _ => None)],
        capacity := capacity,
        maxDisplacements := 2 * st.maxDisplacements,
        resizing := st.policy.guarded,
        salt1 := salt1,
        salt2 := if st.policy.derivedSalt then Xor(salt1, SALT_MASK) else st.source(st.draws + 1),
        draws := st.draws + if st.policy.derivedSalt then 1 else 2)
  }

  /** `resize`: unless a guarded resize is already under way, regrow the tables and re-add every
      value the old ones held, `table[0]` first, slot by slot; the guard comes down once every
      value is re-added. */
  function ResizeResult<T(==)>(st: SetState<T>, fuel: nat): (r: Resized<T>)
    requires st.Sane()
    ensures r.state.Sane()
    decreases fuel, 3
  {
    if st.policy.guarded && st.resizing then Resized(st, true)
    else
      var r := ReinsertFrom(Regrown(st), st.table, 0, 0, fuel);
      if r.finished then Resized(r.state.(resizing := false), true) else r
  }

  /** The re-adding loop of `resize`, from slot `j` of old table `t` on. It stops at an `add`
      that ran out of fuel. */
  function ReinsertFrom<T(==)>(st: SetState<T>, prev: Tables<T>, t: nat, j: nat, fuel: nat): (r: Resized<T>)
    requires st.Sane() && |prev| == 2 && t <= 2 && (t < 2 ==> j <= |prev[t]|)
    ensures r.state.Sane()
    decreases fuel, 2, 2 - t, if t < 2 then |prev[t]| - j else 0
  {
    if t == 2 then Resized(st, true)
    else if j == |prev[t]| then ReinsertFrom(st, prev, t + 1, 0, fuel)
    else
      match prev[t][j]
      case None => ReinsertFrom(st, prev, t, j + 1, fuel)
      case Some(w) =>
        var added := AddResult(st, w, fuel);
        if added.outcome == Unfinished then Resized(added.state, false)
        else ReinsertFrom(added.state, prev, t, j + 1, fuel)
  }

  /** What the counting `populate` comes to: the set, the count of `true` answers, and whether
      every `add` finished (`false`: the count and the set are those at the `add` that ran
      out of fuel). */
  datatype Populated<!T> = Populated(state: SetState<T>, count: nat, finished: bool)

  /** `populate` of src/header/serial-cuckoo.h and its copies: `add` each value in order and
      count the calls that returned `true`. */
  function PopulateResult<T(==)>(st: SetState<T>, list: seq<T>, fuel: nat): (r: Populated<T>)
    requires st.Sane()
    ensures r.state.Sane()
    decreases list
  {
    if list == [] then Populated(st, 0, true)
    else
      var first := AddResult(st, list[0], fuel);
      if first.outcome == Unfinished then Populated(first.state, 0, false)
      else
        var rest := PopulateResult(first.state, list[1..], fuel);
        Populated(rest.state, rest.count + if first.outcome == Added then 1 else 0, rest.finished)
  }

  /** `populate` of cuckoo-serial2.h: `insert` each value in order and stop at the first call
      that does not return `true`; `Added` stands for the final `true`. */
  function PopulateUntil<T(==)>(st: SetState<T>, list: seq<T>, fuel: nat): (r: Step<T>)
    requires st.Sane()
    ensures r.state.Sane()
    decreases list
  {
    if list == [] then Step(st, Added)
    else
      var first := AddResult(st, list[0], fuel);
      if first.outcome != Added then first
      else PopulateUntil(first.state, list[1..], fuel)
  }

  datatype Removal<!T> = Removal(state: SetState<T>, removed: bool)

  /** `remove(v)`: empty `v`'s slot of `table[0]` if it holds `v`, else its slot of `table[1]`
      if that holds `v`; answer whether a slot was emptied. */
  function RemoveResult<T(==)>(st: SetState<T>, v: T): (r: Removal<T>)
    requires st.Sane()
    ensures r.state.Sane()
  {
    var h := st.Hashes();
    var i, k := h.Slot(0, v), h.Slot(1, v);
    if st.table[0][i] == Some(v) then Removal(st.(table := Clear(st.table, 0, i)), true)
    else if st.table[1][k] == Some(v) then Removal(st.(table := Clear(st.table, 1, k)), true)
    else Removal(st, false)
  }

  /** One slot of the re-adding loop of `resize`, spelled out. */
  lemma ReinsertNext<T>(st: SetState<T>, prev: Tables<T>, t: nat, j: nat, fuel: nat)
    requires st.Sane() && |prev| == 2 && t < 2 && j < |prev[t]|
    ensures ReinsertFrom(st, prev, t, j, fuel)
      == if prev[t][j].None? then ReinsertFrom(st, prev, t, j + 1, fuel)
         else
           var added := AddResult(st, prev[t][j].value, fuel);
           if added.outcome == Unfinished then Resized(added.state, false)
           else ReinsertFrom(added.state, prev, t, j + 1, fuel)
  {
  }

  /** An `add` that answers after a pass that did not finish ran a resize in which no nested
      `add` ran out of fuel. */
  lemma FinishedAddResized<T>(st: SetState<T>, v: T, fuel: nat)
    requires st.Sane() && fuel > 0 && Attempt(st, v).outcome == Unfinished
    requires AddResult(st, v, fuel).outcome != Unfinished
    ensures Retried(st, v, fuel).finished
  {
  }

  /** A re-adding loop that finishes got an answer from the `add` of every old value it
      reached. */
  lemma FinishedReinsertAdded<T>(st: SetState<T>, prev: Tables<T>, t: nat, j: nat, fuel: nat)
    requires st.Sane() && |prev| == 2 && t < 2 && j < |prev[t]| && prev[t][j].Some?
    requires ReinsertFrom(st, prev, t, j, fuel).finished
    ensures AddResult(st, prev[t][j].value, fuel).outcome != Unfinished
  {
  }

  // ---------------------------------------------------------------------------------------
  // The invariant

  lemma AttemptKeepsInv<T>(st: SetState<T>, v: T)
    requires Inv(st)
    ensures Inv(Attempt(st, v).state)
  {
    var h := st.Hashes();
    ProbeFindsStored(st.table, h, v);
    if !Probe(st.table, h, v) {
      DisplaceOutcome(st.table, h, v, st.maxDisplacements);
    }
  }

  lemma {:induction false} AddKeepsInv<T>(st: SetState<T>, v: T, fuel: nat)
    requires Inv(st)
    ensures Inv(AddResult(st, v, fuel).state)
    decreases fuel, 1
  {
    var first := Attempt(st, v);
    AttemptKeepsInv(st, v);
    if first.outcome == Unfinished && fuel > 0 {
      var next := Retried(st, v, fuel);
      RetriedKeepsInv(st, v, fuel);
      if next.finished {
        assert AddResult(st, v, fuel) == AddResult(next.state, v, fuel - 1);
        AddKeepsInv(next.state, v, fuel - 1);
      }
    }
  }

  lemma {:induction false} ResizeKeepsInv<T>(st: SetState<T>, fuel: nat)
    requires Inv(st)
    ensures Inv(ResizeResult(st, fuel).state)
    decreases fuel, 3
  {
    if !(st.policy.guarded && st.resizing) {
      var grown := Regrown(st);
      EmptyTables(grown.table, grown.Hashes());
      ReinsertKeepsInv(grown, st.table, 0, 0, fuel);
    }
  }

  lemma {:induction false} ReinsertKeepsInv<T>(st: SetState<T>, prev: Tables<T>, t: nat, j: nat, fuel: nat)
    requires Inv(st) && |prev| == 2 && t <= 2 && (t < 2 ==> j <= |prev[t]|)
    ensures Inv(ReinsertFrom(st, prev, t, j, fuel).state)
    decreases fuel, 2, 2 - t, if t < 2 then |prev[t]| - j else 0
  {
    if t < 2 {
      if j == |prev[t]| {
        ReinsertKeepsInv(st, prev, t + 1, 0, fuel);
      } else if prev[t][j].Some? {
        var added := AddResult(st, prev[t][j].value, fuel);
        AddKeepsInv(st, prev[t][j].value, fuel);
        if added.outcome != Unfinished {
          ReinsertKeepsInv(added.state, prev, t, j + 1, fuel);
        }
      } else {
        ReinsertKeepsInv(st, prev, t, j + 1, fuel);
      }
    }
  }

  // ---------------------------------------------------------------------------------------
  // Bookkeeping: what the tables hold, and what the chains have discarded

  /** One pass of `add(v)` creates and loses nothing: a value already present is rejected
      and nothing changes; otherwise the tables gain `v` and lose exactly what the pass
      discards, and the pass adds `v` exactly when it discards nothing. */
  lemma AttemptAccounts<T>(st: SetState<T>, v: T)
    requires Inv(st)
    ensures var r := Attempt(st, v);
      && (v in st.Elements() <==> r.outcome == Rejected)
      && (v in st.Elements() ==> r.state == st)
      && (v !in st.Elements() ==>
            var left := Leftover(Displace(st.table, st.Hashes(), v, st.maxDisplacements));
            && r.state.Elements() + left == st.Elements() + multiset{v}
            && r.state.discarded == st.discarded + left
            && (r.outcome == Added <==> left == multiset{}))
  {
    var h := st.Hashes();
    ProbeFindsStored(st.table, h, v);
    if !Probe(st.table, h, v) {
      DisplaceOutcome(st.table, h, v, st.maxDisplacements);
    }
  }

  /** `add(v)` of a value already present returns `false` and changes nothing. Otherwise the
      tables afterwards hold nothing but what they held and `v`, and when the call finishes,
      whatever of that they no longer hold has been discarded by a chain. */
  lemma {:induction false} AddAccounts<T>(st: SetState<T>, v: T, fuel: nat)
    requires Inv(st)
    ensures var r := AddResult(st, v, fuel);
      && (v in st.Elements() ==> r == Step(st, Rejected))
      && (v !in st.Elements() ==>
            && r.state.Elements() <= st.Elements() + multiset{v}
            && (r.outcome != Unfinished ==>
                  st.Elements() + multiset{v} + st.discarded <= r.state.Elements() + r.state.discarded))
    decreases fuel, 1
  {
    var first := Attempt(st, v);
    AttemptAccounts(st, v);
    if v !in st.Elements() {
      if first.outcome == Unfinished && fuel > 0 {
        if Retried(st, v, fuel).finished {
          RetryAccounts(st, v, fuel);
        } else {
          StalledAccounts(st, v, fuel);
        }
      } else {
        var left := Leftover(Displace(st.table, st.Hashes(), v, st.maxDisplacements));
        Unretried(v, left, st.Elements(), first.state.Elements(), st.discarded, first.state.discarded);
      }
    }
  }

  /** The bookkeeping of `AddAccounts` for a pass that did not finish, followed by a resize
      that finished and a retry. */
  lemma {:induction false} RetryAccounts<T>(st: SetState<T>, v: T, fuel: nat)
    requires Inv(st) && v !in st.Elements() && fuel > 0 && Attempt(st, v).outcome == Unfinished
    requires Retried(st, v, fuel).finished
    ensures var r := AddResult(st, v, fuel);
      && r.state.Elements() <= st.Elements() + multiset{v}
      && (r.outcome != Unfinished ==>
            st.Elements() + multiset{v} + st.discarded <= r.state.Elements() + r.state.discarded)
    decreases fuel, 0
  {
    var first := Attempt(st, v);
    AttemptAccounts(st, v);
    var left := Leftover(Displace(st.table, st.Hashes(), v, st.maxDisplacements));
    var st2 := Retried(st, v, fuel).state;
    RetriedKeepsInv(st, v, fuel);
    RetriedWithin(st, v, fuel);
    RetriedAccounts(st, v, fuel);
    var r := AddResult(st2, v, fuel - 1);
    AddAccounts(st2, v, fuel - 1);
    assert AddResult(st, v, fuel) == r;
    if r.outcome != Unfinished {
      Retry(v, left, st.Elements(), first.state.Elements(), st2.Elements(), r.state.Elements(),
            st.discarded, first.state.discarded, st2.discarded, r.state.discarded);
    } else {
      RetryWithin(v, left, st.Elements(), first.state.Elements(), st2.Elements(), r.state.Elements());
    }
  }

  /** The bookkeeping of `AddAccounts` for a pass that did not finish, followed by a resize
      that ran out of fuel. */
  lemma StalledAccounts<T>(st: SetState<T>, v: T, fuel: nat)
    requires Inv(st) && v !in st.Elements() && fuel > 0 && Attempt(st, v).outcome == Unfinished
    requires !Retried(st, v, fuel).finished
    ensures var r := AddResult(st, v, fuel);
      r.outcome == Unfinished && r.state.Elements() <= st.Elements() + multiset{v}
    decreases fuel - 1, 5
  {
    var first := Attempt(st, v);
    AttemptAccounts(st, v);
    var left := Leftover(Displace(st.table, st.Hashes(), v, st.maxDisplacements));
    var st2 := Retried(st, v, fuel).state;
    RetriedWithin(st, v, fuel);
    assert AddResult(st, v, fuel) == Step(st2, Unfinished);
    RetryWithin(v, left, st.Elements(), first.state.Elements(), st2.Elements(), st2.Elements());
  }

  /** The set a retry starts from keeps the invariant. */
  lemma RetriedKeepsInv<T>(st: SetState<T>, v: T, fuel: nat)
    requires Inv(st) && fuel > 0
    ensures Inv(Retried(st, v, fuel).state)
    decreases fuel - 1, 4
  {
    AttemptKeepsInv(st, v);
    ResizeKeepsInv(Attempt(st, v).state, fuel - 1);
  }

  /** The set a retry starts from holds nothing the failed pass did not leave. */
  lemma RetriedWithin<T>(st: SetState<T>, v: T, fuel: nat)
    requires Inv(st) && fuel > 0
    ensures Retried(st, v, fuel).state.Elements() <= Attempt(st, v).state.Elements()
    decreases fuel - 1, 4
  {
    AttemptKeepsInv(st, v);
    ResizeAccounts(Attempt(st, v).state, fuel - 1);
  }

  /** When the resize before a retry finished, the set the retry starts from loses nothing
      the failed pass left without discarding it. */
  lemma RetriedAccounts<T>(st: SetState<T>, v: T, fuel: nat)
    requires Inv(st) && fuel > 0 && Retried(st, v, fuel).finished
    ensures var first, next := Attempt(st, v).state, Retried(st, v, fuel).state;
      first.Elements() + first.discarded <= next.Elements() + next.discarded
    decreases fuel - 1, 4
  {
    AttemptKeepsInv(st, v);
    ResizeAccounts(Attempt(st, v).state, fuel - 1);
  }

  /** `resize` creates nothing, and when it finishes, whatever it no longer holds has been
      discarded. */
  lemma {:induction false} ResizeAccounts<T>(st: SetState<T>, fuel: nat)
    requires Inv(st)
    ensures var r := ResizeResult(st, fuel);
      && r.state.Elements() <= st.Elements()
      && (r.finished ==> st.Elements() + st.discarded <= r.state.Elements() + r.state.discarded)
    decreases fuel, 3
  {
    if !(st.policy.guarded && st.resizing) {
      var grown := Regrown(st);
      EmptyTables(grown.table, grown.Hashes());
      ReinsertAccounts(grown, st.table, 0, 0, fuel, st.discarded);
      assert Done(st.table, 2, 0) == st.Elements();
    }
  }

  /** The values of `prev` the re-adding loop has gone past before slot `j` of table `t`. */
  function Done<T>(prev: Tables<T>, t: nat, j: nat): multiset<T>
    requires |prev| == 2 && t <= 2 && (t < 2 ==> j <= |prev[t]|)
  {
    if t == 2 then Stored(prev) else Rows(prev, t) + ValuesBelow(prev[t], j)
  }

  lemma DoneRow<T>(prev: Tables<T>, t: nat)
    requires |prev| == 2 && t < 2
    ensures Done(prev, t, |prev[t]|) == Done(prev, t + 1, 0)
  {
  }

  /** Going past one more slot adds its value, which the loop has not met before. */
  lemma DoneSlot<T>(prev: Tables<T>, t: nat, j: nat)
    requires |prev| == 2 && t < 2 && j < |prev[t]| && Distinct(Stored(prev))
    ensures Done(prev, t, j + 1) == Done(prev, t, j) + Held(prev[t][j])
    ensures prev[t][j].Some? ==> prev[t][j].value !in Done(prev, t, j)
  {
    NextRowValue(prev, t, j);
  }

  /** What the re-adding loop keeps: the tables hold only values of `prev` it has gone past,
      and those it has gone past are held or discarded (beyond the `d0` discarded before). */
  ghost predicate Reinserting<T>(st: SetState<T>, prev: Tables<T>, t: nat, j: nat, d0: multiset<T>)
    requires |st.table| == 2 && |prev| == 2 && t <= 2 && (t < 2 ==> j <= |prev[t]|)
  {
    && st.Elements() <= Done(prev, t, j)
    && Done(prev, t, j) + d0 <= st.Elements() + st.discarded
  }

  /** One step of the re-adding loop keeps the tables within what the loop has gone past, and
      an `add` that finishes keeps `Reinserting`. */
  lemma ReinsertStep<T>(st: SetState<T>, prev: Tables<T>, t: nat, j: nat, fuel: nat, d0: multiset<T>)
    requires Inv(st) && |prev| == 2 && t < 2 && j < |prev[t]| && Distinct(Stored(prev))
    requires Reinserting(st, prev, t, j, d0)
    ensures prev[t][j].None? ==> Reinserting(st, prev, t, j + 1, d0)
    ensures prev[t][j].Some? ==>
      var added := AddResult(st, prev[t][j].value, fuel);
      && added.state.Elements() <= Done(prev, t, j + 1)
      && (added.outcome != Unfinished ==> Reinserting(added.state, prev, t, j + 1, d0))
    decreases fuel, 2, 2 - t, |prev[t]| - j, 0
  {
    DoneSlot(prev, t, j);
    if prev[t][j].Some? {
      var w := prev[t][j].value;
      var added := AddResult(st, w, fuel);
      var st2 := added.state;
      AddAccounts(st, w, fuel);
      if added.outcome != Unfinished {
        AccountStep(st.Elements(), Done(prev, t, j), d0, st.discarded, w, st2.Elements(), st2.discarded);
      } else {
        AccountWithin(st.Elements(), Done(prev, t, j), w, st2.Elements());
      }
    }
  }

  /** The re-adding loop holds only values of `prev`, and when it finishes, every value of
      `prev` is held or discarded. */
  lemma {:induction false} ReinsertAccounts<T>(st: SetState<T>, prev: Tables<T>, t: nat, j: nat, fuel: nat,
                                               d0: multiset<T>)
    requires Inv(st) && |prev| == 2 && t <= 2 && (t < 2 ==> j <= |prev[t]|) && Distinct(Stored(prev))
    requires Reinserting(st, prev, t, j, d0)
    ensures var r := ReinsertFrom(st, prev, t, j, fuel);
      && r.state.Elements() <= Done(prev, 2, 0)
      && (r.finished ==> Reinserting(r.state, prev, 2, 0, d0))
    decreases fuel, 2, 2 - t, if t < 2 then |prev[t]| - j else 0, 1
  {
    if t < 2 {
      if j == |prev[t]| {
        DoneRow(prev, t);
        assert ReinsertFrom(st, prev, t, j, fuel) == ReinsertFrom(st, prev, t + 1, 0, fuel);
        ReinsertAccounts(st, prev, t + 1, 0, fuel, d0);
      } else {
        ReinsertStep(st, prev, t, j, fuel, d0);
        match prev[t][j]
        case Some(w) =>
          var added := AddResult(st, w, fuel);
          if added.outcome == Unfinished {
            assert ReinsertFrom(st, prev, t, j, fuel) == Resized(added.state, false);
            PrefixWithin(prev, t, j + 1);
            SubsetTransitive(added.state.Elements(), Done(prev, t, j + 1), Done(prev, 2, 0));
          } else {
            assert ReinsertFrom(st, prev, t, j, fuel) == ReinsertFrom(added.state, prev, t, j + 1, fuel);
            AddKeepsInv(st, w, fuel);
            ReinsertAccounts(added.state, prev, t, j + 1, fuel, d0);
          }
        case None =>
          assert ReinsertFrom(st, prev, t, j, fuel) == ReinsertFrom(st, prev, t, j + 1, fuel);
          ReinsertAccounts(st, prev, t, j + 1, fuel, d0);
      }
    }
  }

  // ---------------------------------------------------------------------------------------
  // Where `v` ends up

  /** A pass that does not give up leaves `v` in the set: placed, or already there. */
  lemma AttemptPlaces<T>(st: SetState<T>, v: T)
    requires Inv(st)
    ensures Attempt(st, v).outcome != Unfinished ==> v in Attempt(st, v).state.Elements()
  {
    AttemptAccounts(st, v);
    var r := Attempt(st, v);
    if r.outcome == Added {
      var left := Leftover(Displace(st.table, st.Hashes(), v, st.maxDisplacements));
      assert r.state.Elements() + left == st.Elements() + multiset{v};
      assert r.state.Elements() == st.Elements() + multiset{v};
    }
  }

  /** Whenever `add(v)` finishes, `true` or `false`, `v` is in the set afterwards. */
  lemma {:induction false} AddPlaces<T>(st: SetState<T>, v: T, fuel: nat)
    requires Inv(st)
    ensures var r := AddResult(st, v, fuel);
      r.outcome != Unfinished ==> v in r.state.Elements()
    decreases fuel
  {
    var first := Attempt(st, v);
    if first.outcome == Unfinished && fuel > 0 {
      var next := Retried(st, v, fuel);
      if next.finished {
        assert AddResult(st, v, fuel) == AddResult(next.state, v, fuel - 1);
        RetriedKeepsInv(st, v, fuel);
        AddPlaces(next.state, v, fuel - 1);
      }
    } else {
      assert AddResult(st, v, fuel) == first;
      AttemptPlaces(st, v);
    }
  }

  lemma AddAnswers<T>(st: SetState<T>, v: T, fuel: nat)
    requires Inv(st)
    ensures var r := AddResult(st, v, fuel);
      && (r.outcome == Added ==> v !in st.Elements())
      && (v in st.Elements() ==> r.outcome == Rejected)
  {
    AddAccounts(st, v, fuel);
  }

  // ---------------------------------------------------------------------------------------
  // The entry an exhausted chain throws away

  /** When the rounds run out while an older value is being carried, the pass throws that
      value away and keeps `v`: the set loses a value nobody asked to remove. */
  lemma PassDiscardsOther<T>(st: SetState<T>, v: T)
    requires Inv(st) && v !in st.Elements()
    ensures var d, r := Displace(st.table, st.Hashes(), v, st.maxDisplacements), Attempt(st, v);
      d.Carrying? && d.carried != v ==>
        && r.outcome == Unfinished
        && v in r.state.Elements()
        && d.carried in st.Elements() && d.carried !in r.state.Elements()
  {
    var d, r := Displace(st.table, st.Hashes(), v, st.maxDisplacements), Attempt(st, v);
    AttemptAccounts(st, v);
    if d.Carrying? && d.carried != v {
      var w := d.carried;
      var e0, e1 := st.Elements(), r.state.Elements();
      assert (e1 + multiset{w})[v] == (e0 + multiset{v})[v];
      assert (e1 + multiset{w})[w] == (e0 + multiset{v})[w];
      assert e0[w] == 1;
    }
  }

  /** If, after a pass that did not finish, the resized set holds `v` (the pass placed it
      and kept some other value), the retry answers `false` and changes nothing more, unless
      the resize itself ran out of fuel. */
  lemma RetryRejects<T>(st: SetState<T>, v: T, fuel: nat)
    requires Inv(st) && fuel > 0 && Attempt(st, v).outcome == Unfinished
    requires v in Retried(st, v, fuel).state.Elements()
    ensures var next := Retried(st, v, fuel);
      AddResult(st, v, fuel) == Step(next.state, if next.finished then Rejected else Unfinished)
  {
    var first := Attempt(st, v);
    AttemptKeepsInv(st, v);
    ResizeKeepsInv(first.state, fuel - 1);
    AddAccounts(Retried(st, v, fuel).state, v, fuel - 1);
  }

  // ---------------------------------------------------------------------------------------
  // No rounds: a set built with capacity 1

  lemma {:induction false} AddKeepsNoRounds<T>(st: SetState<T>, v: T, fuel: nat)
    requires st.Sane() && st.maxDisplacements == 0
    ensures AddResult(st, v, fuel).state.maxDisplacements == 0
    decreases fuel, 1
  {
    var first := Attempt(st, v);
    if first.outcome == Unfinished && fuel > 0 {
      var next := Retried(st, v, fuel);
      ResizeKeepsNoRounds(first.state, fuel - 1);
      if next.finished {
        assert AddResult(st, v, fuel) == AddResult(next.state, v, fuel - 1);
        AddKeepsNoRounds(next.state, v, fuel - 1);
      }
    }
  }

  lemma {:induction false} ResizeKeepsNoRounds<T>(st: SetState<T>, fuel: nat)
    requires st.Sane() && st.maxDisplacements == 0
    ensures ResizeResult(st, fuel).state.maxDisplacements == 0
    decreases fuel, 3
  {
    if !(st.policy.guarded && st.resizing) {
      ReinsertKeepsNoRounds(Regrown(st), st.table, 0, 0, fuel);
    }
  }

  lemma {:induction false} ReinsertKeepsNoRounds<T>(st: SetState<T>, prev: Tables<T>, t: nat, j: nat, fuel: nat)
    requires st.Sane() && st.maxDisplacements == 0 && |prev| == 2 && t <= 2 && (t < 2 ==> j <= |prev[t]|)
    ensures ReinsertFrom(st, prev, t, j, fuel).state.maxDisplacements == 0
    decreases fuel, 2, 2 - t, if t < 2 then |prev[t]| - j else 0
  {
    if t < 2 {
      if j == |prev[t]| {
        ReinsertKeepsNoRounds(st, prev, t + 1, 0, fuel);
      } else {
        match prev[t][j]
        case Some(w) =>
          var added := AddResult(st, w, fuel);
          AddKeepsNoRounds(st, w, fuel);
          if added.outcome != Unfinished {
            ReinsertKeepsNoRounds(added.state, prev, t, j + 1, fuel);
          }
        case None =>
          ReinsertKeepsNoRounds(st, prev, t, j + 1, fuel);
      }
    }
  }

  /** A set with no rounds, and `v` absent from it. */
  ghost predicate Stuck<T>(st: SetState<T>, v: T)
  {
    Inv(st) && st.maxDisplacements == 0 && v !in st.Elements()
  }

  /** With no rounds, a pass of `add` of an absent value discards that value and leaves the
      tables as they were. */
  lemma NoRoundsPass<T>(st: SetState<T>, v: T)
    requires Stuck(st, v)
    ensures var r := Attempt(st, v);
      r.outcome == Unfinished && r.state.table == st.table && Stuck(r.state, v)
  {
    ProbeFindsStored(st.table, st.Hashes(), v);
    DisplaceOutcome(st.table, st.Hashes(), v, 0);
  }

  /** A resize of a set with no rounds keeps it so, and brings back no value. */
  lemma ResizeKeepsStuck<T>(st: SetState<T>, v: T, fuel: nat)
    requires Stuck(st, v)
    ensures Stuck(ResizeResult(st, fuel).state, v) && ResizeResult(st, fuel).state.Elements() <= st.Elements()
  {
    ResizeKeepsInv(st, fuel);
    ResizeAccounts(st, fuel);
    ResizeKeepsNoRounds(st, fuel);
  }

  /** With no rounds, one failed pass and the resize after it leave a set that is again
      stuck on the same value, no larger than before. */
  lemma NoRoundsRetry<T>(st: SetState<T>, v: T, fuel: nat)
    requires Stuck(st, v) && fuel > 0
    ensures Stuck(Retried(st, v, fuel).state, v) && Retried(st, v, fuel).state.Elements() <= st.Elements()
  {
    var first := Attempt(st, v).state;
    NoRoundsPass(st, v);
    assert first.Elements() == st.Elements();
    ResizeKeepsStuck(first, v, fuel - 1);
  }

  /** With no rounds, `add` of an absent value never finishes: every pass discards the value
      itself, and every resize keeps the rounds at zero. Meanwhile the set only shrinks. */
  lemma {:induction false} NoRoundsNeverAdds<T>(st: SetState<T>, v: T, fuel: nat)
    requires Stuck(st, v)
    ensures var r := AddResult(st, v, fuel);
      r.outcome == Unfinished && r.state.Elements() <= st.Elements()
    decreases fuel
  {
    if fuel == 0 {
      NoRoundsPass(st, v);
    } else {
      NoRoundsPass(st, v);
      var next := Retried(st, v, fuel);
      NoRoundsRetry(st, v, fuel);
      if next.finished {
        assert AddResult(st, v, fuel) == AddResult(next.state, v, fuel - 1);
        NoRoundsNeverAdds(next.state, v, fuel - 1);
        SubsetTransitive(AddResult(next.state, v, fuel - 1).state.Elements(), next.state.Elements(), st.Elements());
      }
    }
  }

  lemma SubsetTransitive<T>(a: multiset<T>, b: multiset<T>, c: multiset<T>)
    requires a <= b && b <= c
    ensures a <= c
  {
    forall x ensures a[x] <= c[x] {
      assert a[x] <= b[x] <= c[x];
    }
  }

  // ---------------------------------------------------------------------------------------
  // remove

  /** `remove(v)` answers `true` exactly when `v` is in the set; it then takes out that one
      value, and otherwise changes nothing. Only the tables change, and the set keeps its
      invariant. */
  lemma RemoveAnswers<T>(st: SetState<T>, v: T)
    requires Inv(st)
    ensures var r := RemoveResult(st, v);
      && Inv(r.state)
      && (r.removed <==> v in st.Elements())
      && r.state.Elements() == st.Elements() - multiset{v}
      && v !in r.state.Elements()
      && r.state == st.(table := r.state.table)
      && (!r.removed ==> r.state == st)
  {
    var h := st.Hashes();
    var i, k := h.Slot(0, v), h.Slot(1, v);
    ProbeFindsStored(st.table, h, v);
    if st.table[0][i] == Some(v) {
      Cleared(st.table, h, 0, i, v);
    } else if st.table[1][k] == Some(v) {
      Cleared(st.table, h, 1, k, v);
    }
  }

  // ---------------------------------------------------------------------------------------
  // What `resize` does to the capacity, the rounds and the salts

  /** While a guarded resize re-adds values, an `add` changes nothing but the tables and the
      discarded values: the `resize` before each retry does nothing. */
  lemma {:induction false} AddWhileResizing<T>(st: SetState<T>, v: T, fuel: nat)
    requires st.Sane() && st.policy.guarded && st.resizing
    ensures var r := AddResult(st, v, fuel).state;
      r == st.(table := r.table, discarded := r.discarded)
    decreases fuel
  {
    var first := Attempt(st, v);
    if first.outcome == Unfinished && fuel > 0 {
      assert Retried(st, v, fuel) == Resized(first.state, true);
      AddWhileResizing(first.state, v, fuel - 1);
    }
  }

  lemma {:induction false} ReinsertWhileResizing<T>(st: SetState<T>, prev: Tables<T>, t: nat, j: nat, fuel: nat)
    requires st.Sane() && st.policy.guarded && st.resizing
    requires |prev| == 2 && t <= 2 && (t < 2 ==> j <= |prev[t]|)
    ensures var r := ReinsertFrom(st, prev, t, j, fuel).state;
      r == st.(table := r.table, discarded := r.discarded)
    decreases 2 - t, if t < 2 then |prev[t]| - j else 0
  {
    if t < 2 {
      if j == |prev[t]| {
        ReinsertWhileResizing(st, prev, t + 1, 0, fuel);
      } else {
        match prev[t][j]
        case Some(w) =>
          var added := AddResult(st, w, fuel);
          AddWhileResizing(st, w, fuel);
          if added.outcome != Unfinished {
            ReinsertWhileResizing(added.state, prev, t, j + 1, fuel);
          }
        case None =>
          ReinsertWhileResizing(st, prev, t, j + 1, fuel);
      }
    }
  }

  /** A guarded `resize` does nothing while another is under way. Otherwise it doubles the
      capacity and the rounds, draws its salts from the source, and ends with the guard down
      (the guard is still up when a re-add ran out of fuel); nothing else but the tables and
      the discarded values changes. */
  lemma ResizeFields<T>(st: SetState<T>, fuel: nat)
    requires st.Sane() && st.policy.guarded
    ensures var rs := ResizeResult(st, fuel); var r := rs.state;
      && (st.resizing ==> rs == Resized(st, true))
      && (!st.resizing ==>
            && r.capacity == 2 * st.capacity
            && r.maxDisplacements == 2 * st.maxDisplacements
            && r.resizing == !rs.finished
            && r.salt1 == st.source(st.draws)
            && r.salt2 == (if st.policy.derivedSalt then Xor(r.salt1, SALT_MASK) else st.source(st.draws + 1))
            && r.draws == st.draws + (if st.policy.derivedSalt then 1 else 2)
            && r.keyHash == st.keyHash && r.source == st.source && r.policy == st.policy)
  {
    if !st.resizing {
      ReinsertWhileResizing(Regrown(st), st.table, 0, 0, fuel);
    }
  }

  /** The second salt is the first one XORed with `SALT_MASK`. */
  ghost predicate SaltsDerived<T>(st: SetState<T>)
  {
    st.salt2 == Xor(st.salt1, SALT_MASK)
  }

  /** `b` follows `a` without shrinking: same policy, no fewer slots, no fewer rounds, and
      salts still derived under a policy that derives them. */
  ghost predicate Follows<T>(a: SetState<T>, b: SetState<T>)
  {
    && b.policy == a.policy && b.capacity >= a.capacity && b.maxDisplacements >= a.maxDisplacements
    && (a.policy.derivedSalt ==> SaltsDerived(b))
  }

  lemma {:induction false} AddFollows<T>(st: SetState<T>, v: T, fuel: nat)
    requires st.Sane() && (st.policy.derivedSalt ==> SaltsDerived(st))
    ensures Follows(st, AddResult(st, v, fuel).state)
    decreases fuel, 1
  {
    var first := Attempt(st, v);
    if first.outcome == Unfinished && fuel > 0 {
      var next := Retried(st, v, fuel);
      ResizeFollows(first.state, fuel - 1);
      if next.finished {
        assert AddResult(st, v, fuel) == AddResult(next.state, v, fuel - 1);
        AddFollows(next.state, v, fuel - 1);
      }
    }
  }

  /** A `resize` that runs at least doubles the capacity and the rounds (an unguarded one may
      resize again while re-adding), and under a policy that derives the second salt leaves
      `salt2 == salt1 ^ SALT_MASK`, whatever the salts were before. */
  lemma {:induction false} ResizeFollows<T>(st: SetState<T>, fuel: nat)
    requires st.Sane()
    requires st.policy.derivedSalt && st.policy.guarded && st.resizing ==> SaltsDerived(st)
    ensures var r := ResizeResult(st, fuel).state;
      && Follows(st, r)
      && (!(st.policy.guarded && st.resizing) ==>
            r.capacity >= 2 * st.capacity && r.maxDisplacements >= 2 * st.maxDisplacements)
    decreases fuel, 3
  {
    if !(st.policy.guarded && st.resizing) {
      ReinsertFollows(Regrown(st), st.table, 0, 0, fuel);
    }
  }

  lemma {:induction false} ReinsertFollows<T>(st: SetState<T>, prev: Tables<T>, t: nat, j: nat, fuel: nat)
    requires st.Sane() && (st.policy.derivedSalt ==> SaltsDerived(st))
    requires |prev| == 2 && t <= 2 && (t < 2 ==> j <= |prev[t]|)
    ensures Follows(st, ReinsertFrom(st, prev, t, j, fuel).state)
    decreases fuel, 2, 2 - t, if t < 2 then |prev[t]| - j else 0
  {
    if t < 2 {
      if j == |prev[t]| {
        ReinsertFollows(st, prev, t + 1, 0, fuel);
      } else {
        match prev[t][j]
        case Some(w) =>
          var added := AddResult(st, w, fuel);
          AddFollows(st, w, fuel);
          if added.outcome != Unfinished {
            ReinsertFollows(added.state, prev, t, j + 1, fuel);
          }
        case None =>
          ReinsertFollows(st, prev, t, j + 1, fuel);
      }
    }
  }

  // ---------------------------------------------------------------------------------------
  // populate

  /** `populate` keeps the invariant and counts at most one success per value. */
  lemma {:induction false} PopulateKeepsInv<T>(st: SetState<T>, list: seq<T>, fuel: nat)
    requires Inv(st)
    ensures var r := PopulateResult(st, list, fuel);
      Inv(r.state) && r.count <= |list|
    decreases list
  {
    if list != [] {
      AddKeepsInv(st, list[0], fuel);
      if AddResult(st, list[0], fuel).outcome != Unfinished {
        PopulateKeepsInv(AddResult(st, list[0], fuel).state, list[1..], fuel);
      }
    }
  }

  /** What `add(v)` leaves in the set is what was there, plus `v` at most. */
  lemma AddWithin<T>(st: SetState<T>, v: T, fuel: nat)
    requires Inv(st)
    ensures AddResult(st, v, fuel).state.Elements() <= st.Elements() + multiset{v}
  {
    AddAccounts(st, v, fuel);
  }

  /** `populate` leaves in the set nothing but what was there and values of the list. */
  lemma {:induction false} PopulateWithin<T>(st: SetState<T>, list: seq<T>, fuel: nat)
    requires Inv(st)
    ensures PopulateResult(st, list, fuel).state.Elements() <= st.Elements() + multiset(list)
    decreases list
  {
    if list != [] {
      var v := list[0];
      var first := AddResult(st, v, fuel).state;
      AddWithin(st, v, fuel);
      assert multiset(list) == multiset{v} + multiset(list[1..]) by {
        assert list == [v] + list[1..];
      }
      if AddResult(st, v, fuel).outcome == Unfinished {
        WithinBoth(st.Elements(), v, first.Elements(), multiset(list[1..]), first.Elements());
      } else {
        AddKeepsInv(st, v, fuel);
        PopulateWithin(first, list[1..], fuel);
        WithinBoth(st.Elements(), v, first.Elements(), multiset(list[1..]),
                   PopulateResult(first, list[1..], fuel).state.Elements());
      }
    }
  }

  /** `populate` of two lists one after the other is `populate` of the first, then of the
      second from where the first left the set, with the two counts added up; if an `add` of
      the first list runs out of fuel, the second is never reached. */
  lemma {:induction false} PopulateConcat<T>(st: SetState<T>, a: seq<T>, b: seq<T>, fuel: nat)
    requires st.Sane()
    ensures var x := PopulateResult(st, a, fuel);
      var y := PopulateResult(x.state, b, fuel);
      PopulateResult(st, a + b, fuel)
        == if x.finished then Populated(y.state, x.count + y.count, y.finished) else x
    decreases a
  {
    if a == [] {
      assert a + b == b;
    } else {
      assert (a + b)[1..] == a[1..] + b;
      if AddResult(st, a[0], fuel).outcome != Unfinished {
        PopulateConcat(AddResult(st, a[0], fuel).state, a[1..], b, fuel);
      }
    }
  }

  /** The `populate` of cuckoo-serial2.h stops at the first `insert` that fails: the values
      after it are never inserted. */
  lemma {:induction false} PopulateUntilConcat<T>(st: SetState<T>, a: seq<T>, b: seq<T>, fuel: nat)
    requires st.Sane()
    ensures var x := PopulateUntil(st, a, fuel);
      PopulateUntil(st, a + b, fuel) == if x.outcome == Added then PopulateUntil(x.state, b, fuel) else x
    decreases a
  {
    if a == [] {
      assert a + b == b;
    } else {
      assert (a + b)[1..] == a[1..] + b;
      var first := AddResult(st, a[0], fuel);
      if first.outcome == Added {
        PopulateUntilConcat(first.state, a[1..], b, fuel);
      }
    }
  }

  /** The two versions of `populate` agree while every call succeeds: the stopping one answers
      `true` exactly when the counting one counts every value, and then they leave the same
      set. */
  lemma {:induction false} PopulateAgree<T>(st: SetState<T>, list: seq<T>, fuel: nat)
    requires st.Sane()
    ensures var c, u := PopulateResult(st, list, fuel), PopulateUntil(st, list, fuel);
      c.count <= |list| && (u.outcome == Added <==> c.count == |list|)
      && (u.outcome == Added ==> u.state == c.state && c.finished)
    decreases list
  {
    if list != [] {
      var first := AddResult(st, list[0], fuel);
      if first.outcome != Unfinished {
        PopulateAgree(first.state, list[1..], fuel);
      }
    }
  }
}
