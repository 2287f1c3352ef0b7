/** A pass of a plain iterator that deletes the dead among the entries it
    returns, on tables that its own deletions migrate and swap. */
module DictSweep {
  import opened Wrappers
  import opened Bytes
  import opened DictModel
  import opened DictOps
  import opened DictIteration
  import opened DictSafePass

  /** The chain an entry is linked in, whichever table that is. */
  function ChainOf(s: State, e: Entry): Chain {
    if s.t0 != [] && e in s.t0[Slot(e.key, |s.t0|)] then s.t0[Slot(e.key, |s.t0|)]
    else if s.t1 != [] then s.t1[Slot(e.key, |s.t1|)]
    else []
  }

  /** The entries linked behind the one returned, from the saved successor on. */
  ghost function Tail(s: State, it: It): Chain {
    if it.entry.Some? && it.nextEntry.Some? then Suffix(ChainOf(s, it.nextEntry.value), it.nextEntry.value) else []
  }

  /** The iterator of a sweep, at the entry it has just returned. */
  ghost predicate Sweeping(s: State, it: It) {
    && WF(s) && !it.safe && it.table <= 1 && -1 <= it.index
    && (it.entry.Some? ==>
          && it.entry.value in Bag(s) && it.nextEntry == Link(s, it.entry.value)
          && (Migrating(s) && it.entry.value in Flat(s.t0) ==>
                it.table == 0 && Slot(it.entry.value.key, |s.t0|) == it.index))
  }

  /** Deletions perform steps. */
  predicate Migrating(s: State) {
    s.Rehashing() && s.iterators == 0
  }

  /** The next deletion does not swap the tables. */
  ghost predicate Calm(s: State) {
    Migrating(s) ==> Used(s.t0) > 0
  }

  /** The dictionary when the turn of the entry is over. */
  ghost function Turned(s: State, it: It, dead: set<Entry>): (r: State)
    requires WF(s) && it.entry.Some?
    ensures WF(r)
  {
    if it.entry.value in dead then Delete(s, it.entry.value.key) else s
  }

  function Occupied(s: State, it: It): nat {
    if it.table == 0 && 0 <= it.index < |s.t0| && s.t0[it.index] != [] then 1 else 0
  }

  // ----- links and chains -----

  lemma ChainOfIsThere(s: State, e: Entry)
    requires WF(s) && e in Bag(s)
    ensures e in ChainOf(s, e) && NoDup(ChainOf(s, e))
    ensures Link(s, e) == Successor(ChainOf(s, e), e)
    ensures forall x | x in ChainOf(s, e) :: x in Bag(s) && ChainOf(s, x) == ChainOf(s, e)
  {
    InSlot(s.t0, e);
    InSlot(s.t1, e);
    var table := if e in Flat(s.t0) then 0 else 1;
    var t := TableOf(s, table);
    var i := Slot(e.key, |t|);
    ChainsNoDup(s, table, i);
    forall x | x in t[i]
      ensures x in Bag(s) && ChainOf(s, x) == t[i]
    {
      InTableInBag(s, table, i, x);
      InFlat(t, x);
      TablesDisjoint(s, x);
      InFlat(s.t0, x);
    }
  }

  lemma SuffixSplits(c: Chain, e: Entry)
    requires NoDup(c) && e in c
    ensures var n := Successor(c, e);
            && Suffix(c, e) == [e] + (if n.Some? then Suffix(c, n.value) else [])
            && (n.Some? ==> n.value in c && n.value != e && e !in Suffix(c, n.value))
  {
    var j := SuffixPosition(c, e);
    if j + 1 < |c| {
      SuffixAt(c, j + 1);
    }
  }

  /** Behind an entry comes its successor and what is behind that. */
  lemma TailBehind(s: State, e: Entry)
    requires WF(s) && e in Bag(s)
    ensures var n := Link(s, e);
            && Suffix(ChainOf(s, e), e) == [e] + (if n.Some? then Suffix(ChainOf(s, n.value), n.value) else [])
            && (n.Some? ==>
                  && n.value in Bag(s) && n.value != e && ChainOf(s, n.value) == ChainOf(s, e)
                  && e !in Suffix(ChainOf(s, n.value), n.value))
  {
    hide WF, Bag, ChainOf, Link, Suffix, Successor, NoDup;
    ChainOfIsThere(s, e);
    SuffixSplits(ChainOf(s, e), e);
  }

  // ----- one migration step -----

  lemma {:induction false} MoveChainSuffix(c: Chain, t: Buckets, i: nat, n: Entry)
    requires t != [] && i < |t| && n in t[i] && n !in c
    ensures n in MoveChain(c, t)[i] && Suffix(MoveChain(c, t)[i], n) == Suffix(t[i], n)
    decreases |c|
  {
    if c != [] {
      PushSuffix(t, c[0], i, n);
      MoveChainSuffix(c[1..], Push(t, c[0]), i, n);
    }
  }

  lemma EmptiedMoves(t: Buckets, j: nat, x: Entry)
    requires Placed(t) && j < |t|
    ensures x in Flat(t[j := []]) <==> x in Flat(t) && x !in t[j]
    ensures x in t[j] ==> x in Flat(t)
  {
    var u := t[j := []];
    InFlat(u, x);
    InFlat(t, x);
    forall i | 0 <= i < |t| && x in t[i] && x in t[j]
      ensures i == j
    {
      assert Slot(x.key, |t|) == i && Slot(x.key, |t|) == j;
    }
    assert forall i | 0 <= i < |t| && i != j :: u[i] == t[i];
  }

  lemma MovedArrives(c: Chain, t: Buckets, x: Entry)
    requires t != [] && Placed(t)
    ensures x in Flat(MoveChain(c, t)) <==> x in Flat(t) || x in c
  {
    MoveChainFacts(c, t);
    hide Placed, Flat, MoveChain;
    assert x in Flat(MoveChain(c, t)) <==> x in multiset(Flat(t)) + multiset(c);
  }

  /** Where the entries are after the chain of bucket j has moved. */
  lemma MoveBucketMoves(s: State, j: nat, x: Entry)
    requires WF(s) && s.Rehashing() && j < |s.t0|
    ensures var r := MoveBucket(s, j);
            && |r.t0| == |s.t0| && |r.t1| == |s.t1|
            && (x in Flat(r.t0) <==> x in Flat(s.t0) && x !in s.t0[j])
            && (x in Flat(r.t1) <==> x in Flat(s.t1) || x in s.t0[j])
  {
    hide Placed, Flat, MoveChain, Unique;
    EmptiedMoves(s.t0, j, x);
    MovedArrives(s.t0[j], s.t1, x);
  }

  /** A chain that is not moved keeps what is linked behind an entry. */
  lemma MoveBucketTail(s: State, j: nat, n: Entry)
    requires WF(s) && s.Rehashing() && j < |s.t0| && n in Bag(s) && n !in s.t0[j]
    ensures var r := MoveBucket(s, j);
            Suffix(ChainOf(r, n), n) == Suffix(ChainOf(s, n), n)
  {
    var r := MoveBucket(s, j);
    InSlot(s.t0, n);
    InSlot(s.t1, n);
    if n in Flat(s.t0) {
      assert r.t0[Slot(n.key, |s.t0|)] == s.t0[Slot(n.key, |s.t0|)];
    } else {
      MoveChainSuffix(s.t0[j], s.t1, Slot(n.key, |s.t1|), n);
    }
  }

  lemma UnlinkKeepsTail(t: Buckets, key: Key, n: Entry)
    requires t != [] && n in t[Slot(n.key, |t|)] && FindInTable(t, key).Some?
    requires FindInTable(t, key).value !in Suffix(t[Slot(n.key, |t|)], n)
    ensures var c := UnlinkInTable(t, key)[Slot(n.key, |t|)];
            n in c && Suffix(c, n) == Suffix(t[Slot(n.key, |t|)], n)
  {
    if Slot(n.key, |t|) == Slot(key, |t|) {
      UnlinkSuffix(t[Slot(key, |t|)], key, n);
    }
  }

  lemma UnlinkAddsNone(t: Buckets, key: Key, n: Entry)
    requires t != [] && n !in t[Slot(n.key, |t|)]
    ensures n !in UnlinkInTable(t, key)[Slot(n.key, |t|)]
  {
    UnlinkSubset(t[Slot(key, |t|)], key);
  }

  /** Removing an entry keeps what is linked behind another one that it is not behind. */
  lemma RemoveTail(s: State, e: Entry, n: Entry)
    requires WF(s) && s.t0 != [] && e in Bag(s) && n in Bag(s) && e !in Suffix(ChainOf(s, n), n)
    ensures Suffix(ChainOf(Remove(s, e.key), n), n) == Suffix(ChainOf(s, n), n)
  {
    hide Flat, Unique, UnlinkInTable, Slot, Suffix, Placed, FindInTable;
    LookupFinds(s, e);
    InSlot(s.t0, n);
    InSlot(s.t1, n);
    OldTableThere(s);
    if n in s.t0[Slot(n.key, |s.t0|)] {
      if FindInTable(s.t0, e.key).Some? {
        UnlinkKeepsTail(s.t0, e.key, n);
      }
    } else {
      if FindInTable(s.t0, e.key).Some? {
        UnlinkAddsNone(s.t0, e.key, n);
      } else {
        UnlinkKeepsTail(s.t1, e.key, n);
      }
    }
  }

  // ----- one deletion that does not swap the tables -----

  lemma CalmStep(s: State) returns (j: nat)
    requires WF(s) && Calm(s)
    ensures if Migrating(s) then j < |s.t0| && StepIfFree(s) == MoveBucket(s, j) && s.t1 != [] else StepIfFree(s) == s
    ensures Migrating(s) ==> s.t0[j] != []
  {
    j := 0;
    if Migrating(s) {
      WFTables(s);
      ScanStops(s);
      j := FirstNonEmpty(s.t0, s.rehashidx);
      RehashOneKeeps(s);
      assert Rehash(s, 1) == Rehash(RehashOne(s), 0) == RehashOne(s);
    }
  }

  lemma DeleteUnfolds(s: State, key: Key)
    requires WF(s) && s.t0 != []
    ensures var p := StepIfFree(s);
            WF(p) && p.t0 != [] && (p.Rehashing() ==> p.t1 != []) && Delete(s, key) == Remove(p, key)
  {
    StepKeepsTables(s);
  }

  lemma HasTable(s: State, e: Entry)
    requires WF(s) && e in Bag(s)
    ensures s.t0 != []
  {
    OldTableThere(s);
    WFTables(s);
    assert Flat([]) == [];
  }

  lemma UnlinkLocates(t: Buckets, key: Key, x: Entry)
    requires t != [] && FindInTable(t, key).Some? && FindInTable(t, key).value != x
    ensures x in Flat(UnlinkInTable(t, key)) <==> x in Flat(t)
  {
    UnlinkBag(t, key);
    hide UnlinkInTable, FindInTable, Flat;
    assert x in Flat(t) <==> x in multiset(Flat(t));
    assert x in Flat(UnlinkInTable(t, key)) <==> x in multiset(Flat(UnlinkInTable(t, key)));
  }

  lemma RemoveLocates(s: State, e: Entry, x: Entry)
    requires WF(s) && s.t0 != [] && (s.Rehashing() ==> s.t1 != []) && e in Bag(s) && x != e
    ensures var r := Remove(s, e.key);
            && |r.t0| == |s.t0| && |r.t1| == |s.t1| && r.rehashidx == s.rehashidx && r.iterators == s.iterators
            && (x in Flat(r.t0) <==> x in Flat(s.t0)) && (x in Flat(r.t1) <==> x in Flat(s.t1))
  {
    LookupFinds(s, e);
    hide WF, UnlinkInTable, FindInTable, Slot, Flat, Bag;
    if FindInTable(s.t0, e.key).Some? {
      UnlinkLocates(s.t0, e.key, x);
    } else if s.Rehashing() && FindInTable(s.t1, e.key).Some? {
      UnlinkLocates(s.t1, e.key, x);
    }
  }

  /** Every other entry stays, or moves from the old table to the new one. */
  lemma DeleteLocates(s: State, e: Entry, x: Entry)
    requires WF(s) && Calm(s) && e in Bag(s) && x in Bag(s) && x != e
    ensures var r := Delete(s, e.key);
            && |r.t0| == |s.t0| && |r.t1| == |s.t1| && r.Rehashing() == s.Rehashing() && r.iterators == s.iterators
            && x in Bag(r)
            && (x in Flat(r.t0) ==> x in Flat(s.t0)) && (x in Flat(s.t1) ==> x in Flat(r.t1))
            && (x in Flat(s.t0) && !Migrating(s) ==> x in Flat(r.t0))
            && (x in Flat(s.t0) ==> x in Flat(r.t0) || (Migrating(s) && x in Flat(r.t1)))
  {
    HasTable(s, e);
    DeleteUnfolds(s, e.key);
    var j := CalmStep(s);
    hide WF, Flat, MoveBucket, Remove, Delete, StepIfFree;
    if Migrating(s) {
      MoveBucketMoves(s, j, x);
      MoveBucketShape(s, j);
    }
    RemoveLocates(StepIfFree(s), e, x);
    InEither(s, x);
    InEither(Delete(s, e.key), x);
  }

  lemma MoveBucketShape(s: State, j: nat)
    requires j < |s.t0| && s.t1 != []
    ensures MoveBucket(s, j).Rehashing() && MoveBucket(s, j).iterators == s.iterators
    ensures |MoveBucket(s, j).t0| == |s.t0| && |MoveBucket(s, j).t1| == |s.t1|
  {
  }

  lemma InEither(s: State, x: Entry)
    ensures x in Bag(s) <==> x in Flat(s.t0) || x in Flat(s.t1)
  {
    assert x in Bag(s) <==> x in multiset(Flat(s.t0)) || x in multiset(Flat(s.t1));
  }

  /** The step of the deletion moves the chain of old bucket j, or there is no step. */
  ghost predicate Steps(s: State, j: nat)
    requires WF(s)
  {
    if Migrating(s) then j < |s.t0| && s.t1 != [] && StepIfFree(s) == MoveBucket(s, j) else StepIfFree(s) == s
  }

  ghost predicate Moves(s: State, j: nat, n: Entry) {
    Migrating(s) && j < |s.t0| && n in s.t0[j]
  }

  /** What is linked behind the saved successor stays if its chain is not moved. */
  lemma TailStays(s: State, e: Entry, n: Entry, j: nat)
    requires WF(s) && Steps(s, j) && e in Bag(s) && Link(s, e) == Some(n) && !Moves(s, j, n)
    ensures n in Bag(s) && n != e
    ensures Suffix(ChainOf(Delete(s, e.key), n), n) == Suffix(ChainOf(s, n), n)
  {
    TailBehind(s, e);
    HasTable(s, e);
    DeleteUnfolds(s, e.key);
    hide WF, Flat, MoveBucket, Remove, Delete, StepIfFree, ChainOf, Suffix, Link;
    if Migrating(s) {
      MoveBucketTail(s, j, n);
    }
    RemoveTail(StepIfFree(s), e, n);
  }

  /** If its chain is moved, that was the bucket the iterator is in, and now it is empty. */
  lemma TailMoves(s: State, e: Entry, n: Entry, j: nat)
    requires WF(s) && Steps(s, j) && e in Bag(s) && Link(s, e) == Some(n) && Moves(s, j, n)
    ensures e in s.t0[j] && j == Slot(e.key, |s.t0|)
    ensures var r := Delete(s, e.key);
            |r.t0| == |s.t0| && r.t0[j] == [] && forall x | x in Suffix(ChainOf(s, n), n) :: x in Flat(r.t1)
  {
    var c := s.t0[j];
    ChainOfIsThere(s, e);
    TailBehind(s, e);
    InTableInBag(s, 0, j, n);
    assert Slot(n.key, |s.t0|) == j;
    assert ChainOf(s, n) == c;
    HasTable(s, e);
    DeleteUnfolds(s, e.key);
    MovedChainEmptied(s, e.key, j);
    hide WF, Flat, MoveBucket, Remove, Delete, StepIfFree, ChainOf, Link, Steps;
    forall x | x in Suffix(c, n)
      ensures x in Flat(Delete(s, e.key).t1)
    {
      SuffixMembers(c, n, x);
      MoveBucketMoves(s, j, x);
      InTableInBag(s, 0, j, x);
      RemoveLocates(MoveBucket(s, j), e, x);
    }
  }

  lemma MovedChainEmptied(s: State, key: Key, j: nat)
    requires WF(s) && Migrating(s) && Steps(s, j) && s.t0 != []
    ensures var r := Delete(s, key); |r.t0| == |s.t0| && r.t0[j] == []
  {
    hide WF, MoveChain, Delete, StepIfFree, FindInTable, Slot, UnlinkInTable, Flat, Used, Lookup, Bag;
    DeleteUnfolds(s, key);
    var p := MoveBucket(s, j);
    assert p.t0[j] == [];
    StaysEmpty(p.t0, key, j);
  }

  lemma StaysEmpty(t: Buckets, key: Key, j: nat)
    requires j < |t| && t[j] == []
    ensures UnlinkInTable(t, key)[j] == []
  {
  }

  lemma {:induction false} SuffixMembers(c: Chain, n: Entry, x: Entry)
    requires x in Suffix(c, n)
    ensures x in c
  {
    if c != [] && c[0] != n {
      SuffixMembers(c[1..], n, x);
    }
  }

  // ----- the next entry -----

  ghost predicate Lands(s: State, it: It, r: (State, It, Option<Entry>)) {
    && r.0 == s && !r.1.safe && r.1.entry == r.2 && r.1.table <= 1 && -1 <= r.1.index
    && (r.2.Some? ==>
          && 0 <= r.1.index < |TableOf(s, r.1.table)| && r.2.value in TableOf(s, r.1.table)[r.1.index]
          && r.1.nextEntry == Link(s, r.2.value)
          && (r.1.table > it.table || (r.1.table == it.table && r.1.index > it.index)))
  }

  lemma {:induction false} VisitLands(s: State, it: It)
    requires !it.safe && it.table <= 1 && 0 <= it.index && it.entry.None?
    ensures Lands(s, it.(index := it.index - 1), Visit(s, it))
    decreases 2 - it.table, Ahead(s, it), 1
  {
    hide Link;
    var t := TableOf(s, it.table);
    if it.index < |t| && t[it.index] == [] {
      NextLands(s, it);
    }
  }

  lemma {:induction false} NextLands(s: State, it: It)
    requires !it.safe && it.table <= 1 && -1 <= it.index && it.entry.None?
    ensures Lands(s, it, Next(s, it))
    decreases 2 - it.table, Ahead(s, it), 0
  {
    hide Link, Visit;
    var i := it.index + 1;
    if i < Signed(|TableOf(s, it.table)|) {
      VisitLands(s, it.(index := i));
    } else if s.Rehashing() && it.table == 0 {
      VisitLands(s, it.(table := 1, index := 0));
    }
  }

  lemma LandedSweeping(s: State, it: It, next: It)
    requires WF(s) && Lands(s, it, (s, next, next.entry))
    ensures Sweeping(s, next)
  {
    if next.entry.Some? {
      InTableInBag(s, next.table, next.index, next.entry.value);
      InFlat(TableOf(s, next.table), next.entry.value);
      TablesDisjoint(s, next.entry.value);
    }
  }

  /** The turn of an entry, and the call after it. */
  lemma TurnSweeps(s: State, it: It, dead: set<Entry>)
    requires Sweeping(s, it) && it.entry.Some?
    ensures var r := Turned(s, it, dead);
            var n := Next(r, it);
            && Alive(r, it) && n.0 == r && n.1.entry == n.2 && Sweeping(r, n.1)
  {
    hide Link, Next, ChainOf, Suffix, Turned, WF, Bag, TableOf, Slot, Flat;
    var e, r := it.entry.value, Turned(s, it, dead);
    TailBehind(s, e);
    DeadGone(s, it, dead);
    if it.nextEntry.Some? {
      SuccessorAtHome(s, it, dead);
      NextSaved(r, it);
    } else {
      NextLands(r, it.(entry := None));
      NextSkips(r, it);
      LandedSweeping(r, it.(entry := None), Next(r, it).1);
    }
  }

  lemma DeadGone(s: State, it: It, dead: set<Entry>)
    requires Sweeping(s, it) && it.entry.Some?
    ensures Bag(Turned(s, it, dead)) == if it.entry.value in dead then Bag(s) - multiset{it.entry.value} else Bag(s)
    ensures it.entry.value in dead ==> it.entry.value !in Bag(Turned(s, it, dead))
  {
    hide Bag, Lookup;
    LookupFinds(s, it.entry.value);
    WFBag(s);
  }

  lemma NextSaved(s: State, it: It)
    requires it.table <= 1 && -1 <= it.index && it.entry.Some? && it.nextEntry.Some?
    ensures Next(s, it) == Return(s, it, it.nextEntry.value)
  {
  }

  lemma NextSkips(s: State, it: It)
    requires it.table <= 1 && -1 <= it.index && it.entry.Some? && it.nextEntry.None?
    ensures Next(s, it) == Next(s, it.(entry := None))
  {
  }

  lemma SuccessorAtHome(s: State, it: It, dead: set<Entry>)
    requires Sweeping(s, it) && it.entry.Some? && it.nextEntry.Some?
    ensures var r, n := Turned(s, it, dead), it.nextEntry.value;
            Migrating(r) && n in Flat(r.t0) ==> it.table == 0 && Slot(n.key, |r.t0|) == it.index
  {
    var e, r, n := it.entry.value, Turned(s, it, dead), it.nextEntry.value;
    TailBehind(s, e);
    if Migrating(r) && n in Flat(r.t0) {
      if e in dead {
        MigratingBefore(s, e);
        DeleteLocates(s, e, n);
      }
      SameHome(s, e, n);
    }
  }

  lemma MigratingBefore(s: State, e: Entry)
    requires WF(s) && e in Bag(s) && Migrating(Delete(s, e.key))
    ensures Migrating(s) && Calm(s)
  {
  }

  lemma SameHome(s: State, e: Entry, n: Entry)
    requires WF(s) && e in Bag(s) && Link(s, e) == Some(n) && n in Flat(s.t0)
    ensures e in Flat(s.t0) && Slot(e.key, |s.t0|) == Slot(n.key, |s.t0|)
  {
    hide Link, Suffix, Bag;
    TailBehind(s, e);
    ChainOfIsThere(s, e);
    InSlot(s.t0, n);
    InSlot(s.t0, e);
    assert e in s.t0[Slot(n.key, |s.t0|)];
    InFlat(s.t0, e);
  }

  // ----- the sweep ends -----

  function Phase(s: State): nat {
    if Migrating(s) then 1 else 0
  }

  lemma SwapEnds(s: State, e: Entry)
    requires WF(s) && e in Bag(s) && !Calm(s)
    ensures !Delete(s, e.key).Rehashing()
  {
    HasTable(s, e);
    DeleteUnfolds(s, e.key);
    RehashOneKeeps(s);
    assert Rehash(s, 1) == Rehash(RehashOne(s), 0) == RehashOne(s);
  }

  lemma OccupiedShrinks(s: State, r: State, it: It)
    requires WF(s) && WF(r) && |r.t0| == |s.t0| && forall x | x in Flat(r.t0) :: x in Flat(s.t0)
    ensures Occupied(r, it) <= Occupied(s, it)
  {
    if Occupied(r, it) == 1 {
      var x := r.t0[it.index][0];
      InFlat(r.t0, x);
      InSlot(s.t0, x);
    }
  }

  ghost predicate Below(s: State, it: It, r: State, n: It)
    requires it.table <= 1 && n.table <= 1
  {
    || Phase(r) < Phase(s)
    || (Phase(r) == Phase(s) &&
        (n.table > it.table
         || (n.table == it.table &&
             (Ahead(r, n) < Ahead(s, it)
              || (Ahead(r, n) == Ahead(s, it) &&
                  (Occupied(r, n) < Occupied(s, it)
                   || (Occupied(r, n) == Occupied(s, it) && |Tail(r, n)| < |Tail(s, it)|)))))))
  }

  /** The old table keeps its size, and no entry comes into it. */
  ghost predicate SameSizes(s: State, r: State) {
    && |r.t0| == |s.t0| && |r.t1| == |s.t1| && Phase(r) == Phase(s)
    && forall x | x in Flat(r.t0) :: x in Flat(s.t0)
  }

  lemma TurnSizes(s: State, it: It, dead: set<Entry>, x: Entry)
    requires Sweeping(s, it) && it.entry.Some? && x in Bag(s) && x != it.entry.value
    ensures var r := Turned(s, it, dead); Phase(r) < Phase(s) || SameSizes(s, r)
  {
    var e, r := it.entry.value, Turned(s, it, dead);
    hide Flat, Delete, Link, Slot;
    if e in dead {
      if Calm(s) {
        DeadGone(s, it, dead);
        DeleteLocates(s, e, x);
        forall y | y in Flat(r.t0)
          ensures y in Flat(s.t0)
        {
          InEither(r, y);
          DeleteLocates(s, e, y);
        }
      } else {
        SwapEnds(s, e);
      }
    }
  }

  /** Following the saved successor leaves one entry less behind. */
  lemma SavedShortens(r: State, it: It)
    requires WF(r) && it.table <= 1 && -1 <= it.index && it.entry.Some? && it.nextEntry.Some?
    requires it.nextEntry.value in Bag(r)
    ensures var n := Next(r, it).1;
            && n.table == it.table && n.index == it.index
            && |Tail(r, n)| == |Tail(r, it)| - 1 && Occupied(r, n) == Occupied(r, it)
  {
    hide WF, Bag, ChainOf, Suffix, Link;
    NextSaved(r, it);
    TailBehind(r, it.nextEntry.value);
  }

  lemma CalmTurn(s: State, it: It, r: State)
    requires Sweeping(s, it) && it.entry.Some? && it.nextEntry.Some? && Calm(s)
    requires r == Delete(s, it.entry.value.key) && SameSizes(s, r)
    ensures Occupied(r, it) < Occupied(s, it) || (Occupied(r, it) == Occupied(s, it) && Tail(r, it) == Tail(s, it))
  {
    hide Flat, Delete, Link, Suffix, ChainOf, Steps, Unique, Slot, MoveBucket;
    var e, n := it.entry.value, it.nextEntry.value;
    var j := CalmStep(s);
    OccupiedShrinks(s, r, it);
    assert Steps(s, j) by { StepsAt(s, j); }
    if Moves(s, j, n) {
      TailMoves(s, e, n, j);
      InFlat(s.t0, e);
    } else {
      TailStays(s, e, n, j);
    }
  }

  lemma StepsAt(s: State, j: nat)
    requires WF(s)
    requires if Migrating(s) then j < |s.t0| && s.t1 != [] && StepIfFree(s) == MoveBucket(s, j) else StepIfFree(s) == s
    ensures Steps(s, j)
  {
  }

  lemma SavedBelow(s: State, it: It, dead: set<Entry>)
    requires Sweeping(s, it) && it.entry.Some? && it.nextEntry.Some?
    ensures var r := Turned(s, it, dead); Next(r, it).1.table <= 1 && Below(s, it, r, Next(r, it).1)
  {
    hide Flat, Link, Tail, Occupied, WF, Bag, Next, Calm, Delete, ChainOf, Suffix;
    var e, r, n := it.entry.value, Turned(s, it, dead), it.nextEntry.value;
    TailBehind(s, e);
    DeadGone(s, it, dead);
    TurnSizes(s, it, dead, n);
    SavedShortens(r, it);
    if e in dead && Phase(r) == Phase(s) && SameSizes(s, r) {
      if Calm(s) {
        CalmTurn(s, it, r);
      } else {
        SwapEnds(s, e);
        StillMigrating(s);
      }
    }
  }

  lemma StillMigrating(s: State)
    requires !Calm(s)
    ensures Phase(s) == 1
  {
  }

  lemma TurnBelow(s: State, it: It, dead: set<Entry>)
    requires Sweeping(s, it) && it.entry.Some?
    ensures var r := Turned(s, it, dead);
            var n := Next(r, it).1;
            n.table <= 1 && (n.entry.Some? ==> Below(s, it, r, n))
  {
    hide Below, Turned, Next;
    var r := Turned(s, it, dead);
    TurnSweeps(s, it, dead);
    if it.nextEntry.Some? {
      SavedBelow(s, it, dead);
    } else {
      LandedBelow(s, it, dead);
    }
  }

  lemma LandedBelow(s: State, it: It, dead: set<Entry>)
    requires Sweeping(s, it) && it.entry.Some? && it.nextEntry.None?
    ensures var r := Turned(s, it, dead);
            var n := Next(r, it).1;
            n.table <= 1 && (n.entry.Some? ==> Below(s, it, r, n))
  {
    hide Tail, Occupied, Link, Turned, Next;
    var r := Turned(s, it, dead);
    NextLands(r, it.(entry := None));
    NextSkips(r, it);
    var n := Next(r, it).1;
    if n.entry.Some? {
      InTableInBag(r, n.table, n.index, n.entry.value);
      DeadGone(s, it, dead);
      if n.entry.value != it.entry.value {
        TurnSizes(s, it, dead, n.entry.value);
      } else {
        assert r == s by { KeptIsSame(s, it, dead); }
      }
    }
  }

  lemma KeptIsSame(s: State, it: It, dead: set<Entry>)
    requires WF(s) && it.entry.Some? && it.entry.value !in dead
    ensures Turned(s, it, dead) == s
  {
  }

  /** The rest of a sweep that has just returned an entry. */
  ghost function SweepRun(s: State, it: It, dead: set<Entry>): State
    requires Sweeping(s, it)
    decreases Phase(s), 2 - it.table, Ahead(s, it), Occupied(s, it), |Tail(s, it)|
  {
    if it.entry.None? then s
    else
      TurnSweeps(s, it, dead);
      TurnBelow(s, it, dead);
      var r := Turned(s, it, dead);
      var n := Next(r, it).1;
      if n.entry.None? then r else SweepRun(r, n, dead)
  }
}
