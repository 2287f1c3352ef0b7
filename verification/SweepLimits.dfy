/** When a sweep misses a dead entry: its own deletions swap the tables under
    the iterator, which then goes on to the end of one chain only. */
module SweepLimits {
  import opened Sequences
  import opened Wrappers
  import opened Bytes
  import opened HashArithmetic
  import opened DictModel
  import opened DictOps
  import opened DictRuns
  import opened DictIteration
  import opened DictSafePass
  import opened DictSweep
  import opened SweepExact

  // ----- the dead in the order of the pass -----

  ghost function DeadOf(c: seq<Entry>, dead: set<Entry>): (r: seq<Entry>)
    ensures forall x | x in r :: x in c && x in dead
    ensures forall x | x in c && x in dead :: x in r
  {
    if c == [] then [] else (if c[0] in dead then [c[0]] else []) + DeadOf(c[1..], dead)
  }

  lemma DeadOfFirst(x: Entry, c: seq<Entry>, dead: set<Entry>)
    ensures DeadOf([x] + c, dead) == (if x in dead then [x] else []) + DeadOf(c, dead)
  {
    assert ([x] + c)[1..] == c;
  }

  lemma {:induction false} DeadOfSum(a: seq<Entry>, b: seq<Entry>, dead: set<Entry>)
    ensures DeadOf(a + b, dead) == DeadOf(a, dead) + DeadOf(b, dead)
  {
    if a == [] {
      assert a + b == b;
    } else {
      var x, c := a[0], a[1..];
      var first := if x in dead then [x] else [];
      assert a == [x] + c && a + b == [x] + (c + b);
      hide DeadOf;
      DeadOfFirst(x, c, dead);
      DeadOfFirst(x, c + b, dead);
      DeadOfSum(c, b, dead);
      Assoc(first, DeadOf(c, dead), DeadOf(b, dead));
    }
  }

  lemma {:induction false} DeadOfLiving(c: seq<Entry>, dead: set<Entry>)
    requires forall x | x in c :: x !in dead
    ensures DeadOf(c, dead) == []
  {
    if c != [] {
      DeadOfLiving(c[1..], dead);
    }
  }

  /** From position b on, all belong in one bucket of a table of that size. */
  ghost predicate OneBucket(l: seq<Entry>, b: nat, size: nat)
    requires size > 0
  {
    forall k | b <= k < |l| :: Slot(l[k].key, size) == Slot(l[b].key, size)
  }

  lemma OneBucketStep(l: seq<Entry>, b: nat, size: nat)
    requires size > 0 && b > 0 && l != []
    ensures OneBucket(l, b, size) <==> OneBucket(l[1..], b - 1, size)
  {
    if OneBucket(l[1..], b - 1, size) {
      forall k | b <= k < |l|
        ensures Slot(l[k].key, size) == Slot(l[b].key, size)
      {
        assert l[1..][k - 1] == l[k] && l[1..][b - 1] == l[b];
      }
    }
  }

  // ----- what a migrating deletion does to them -----

  lemma {:induction false} MoveChainDead(c: Chain, t: Buckets, k: nat, dead: set<Entry>)
    requires t != [] && k < |t| && forall x | x in c :: x !in dead
    ensures DeadOf(MoveChain(c, t)[k], dead) == DeadOf(t[k], dead)
    decreases |c|
  {
    if c != [] {
      MoveChainDead(c[1..], Push(t, c[0]), k, dead);
      DeadOfSum([c[0]], t[k], dead);
    }
  }

  lemma {:induction false} FlatDead(t: Buckets, u: Buckets, dead: set<Entry>)
    requires |t| == |u| && forall k | 0 <= k < |t| :: DeadOf(t[k], dead) == DeadOf(u[k], dead)
    ensures DeadOf(Flat(t), dead) == DeadOf(Flat(u), dead)
  {
    if t != [] {
      FlatDead(t[1..], u[1..], dead);
      DeadOfSum(t[0], Flat(t[1..]), dead);
      DeadOfSum(u[0], Flat(u[1..]), dead);
    }
  }

  lemma RestDead(t: Buckets, u: Buckets, i: nat, dead: set<Entry>)
    requires |t| == |u| && forall k | i <= k < |t| :: DeadOf(t[k], dead) == DeadOf(u[k], dead)
    ensures DeadOf(Rest(t, i), dead) == DeadOf(Rest(u, i), dead)
  {
    if i <= |t| {
      FlatDead(t[i..], u[i..], dead);
    }
  }

  /** An entry of the second table is removed from there. */
  lemma RemovesFromSecond(s: State, e: Entry)
    requires WF(s) && s.Rehashing() && e in Flat(s.t1)
    ensures s.t0 != [] && s.t1 != [] && Remove(s, e.key) == s.(t1 := UnlinkInTable(s.t1, e.key))
  {
    InSlot(s.t1, e);
    InEither(s, e);
    TablesDisjoint(s, e);
    var y := FindInTable(s.t0, e.key);
    if y.Some? {
      InSlot(s.t0, y.value);
      InEither(s, y.value);
      UniqueKeys(Bag(s));
    }
  }

  /** The old table holds no dead entry. */
  ghost predicate OldIsLiving(s: State, dead: set<Entry>) {
    forall x | x in Flat(s.t0) :: x !in dead
  }

  /** One bucket less, and the dead of the second table stay in order. */
  ghost predicate OneMoved(s: State, p: State, dead: set<Entry>) {
    && |p.t0| == |s.t0| && |p.t1| == |s.t1| && NonEmpty(p.t0) == NonEmpty(s.t0) - 1
    && OldIsLiving(p, dead)
    && forall k | 0 <= k < |s.t1| :: DeadOf(p.t1[k], dead) == DeadOf(s.t1[k], dead)
  }

  lemma MovesLiving(s: State, j: nat, dead: set<Entry>)
    requires WF(s) && s.Rehashing() && s.t1 != [] && j < |s.t0| && s.t0[j] != [] && OldIsLiving(s, dead)
    ensures OneMoved(s, MoveBucket(s, j), dead)
  {
    var p := MoveBucket(s, j);
    NonEmptyUpdate(s.t0, j, []);
    hide WF, NonEmpty, Flat, MoveChain;
    forall x | x in Flat(p.t0)
      ensures x !in dead
    {
      InFlat(p.t0, x);
      InFlat(s.t0, x);
    }
    forall k | 0 <= k < |s.t1|
      ensures DeadOf(p.t1[k], dead) == DeadOf(s.t1[k], dead)
    {
      forall x | x in s.t0[j]
        ensures x !in dead
      {
        InFlat(s.t0, x);
      }
      MoveChainDead(s.t0[j], s.t1, k, dead);
    }
  }

  /** Deleting a dead entry of the second table takes one bucket off the old one. */
  lemma DeadTurnTables(s: State, e: Entry, dead: set<Entry>)
    requires WF(s) && Migrating(s) && Used(s.t0) > 0 && e in Flat(s.t1) && OldIsLiving(s, dead)
    ensures var r := Delete(s, e.key);
            && Migrating(r) && |r.t0| == |s.t0| && |r.t1| == |s.t1|
            && NonEmpty(r.t0) == NonEmpty(s.t0) - 1 && OldIsLiving(r, dead)
            && s.t1 != [] && forall k | 0 <= k < |s.t1| && k != Slot(e.key, |s.t1|) ::
                 DeadOf(r.t1[k], dead) == DeadOf(s.t1[k], dead)
  {
    hide WF, NonEmpty, Flat, MoveChain, Slot, Delete, StepIfFree, Remove, OldIsLiving, Bag, DeadOf, Used, Lookup;
    WFTables(s);
    var j := CalmStep(s);
    InEither(s, e);
    HasTable(s, e);
    DeleteUnfolds(s, e.key);
    MovesLiving(s, j, dead);
    MoveBucketShape(s, j);
    MoveBucketMoves(s, j, e);
    RemovesFromSecond(MoveBucket(s, j), e);
    SameOld(MoveBucket(s, j), Delete(s, e.key), dead);
  }

  lemma SameOld(s: State, r: State, dead: set<Entry>)
    requires s.t0 == r.t0
    ensures OldIsLiving(s, dead) <==> OldIsLiving(r, dead)
  {
  }

  // ----- the pass -----

  /** A sweep in the middle of a rehash; what is dead is still to come, none of it in the old table. */
  ghost predicate Onward(s: State, it: It, dead: set<Entry>) {
    && Sweeping(s, it) && it.entry.Some? && ItOk(s, it) && Migrating(s) && OldIsLiving(s, dead)
    && it.index >= 0 && it.index < |TableOf(s, it.table)| && it.entry.value in TableOf(s, it.table)[it.index]
    && DeadIn(s, dead) == set x | x in ToCome(s, it, dead)
  }

  /** The dead from the entry just returned on. */
  ghost function ToCome(s: State, it: It, dead: set<Entry>): seq<Entry>
    requires ItOk(s, it) && it.entry.Some?
  {
    DeadOf([it.entry.value] + Pending(s, it), dead)
  }

  lemma NextInPlace(r: State, it: It)
    requires WF(r) && ItOk(r, it) && it.entry.Some? && !it.safe
    ensures var n := Next(r, it).1;
            n.table <= 1 && (n.entry.Some? ==>
              0 <= n.index < |TableOf(r, n.table)| && n.entry.value in TableOf(r, n.table)[n.index])
  {
    hide WF, Next, Link;
    if it.nextEntry.Some? {
      NextSaved(r, it);
    } else {
      NextLands(r, it.(entry := None));
      NextSkips(r, it);
    }
  }

  /** The next call moves to the head of what is pending. */
  lemma NextOnward(r: State, it: It, dead: set<Entry>)
    requires WF(r) && ItOk(r, it) && it.entry.Some? && !it.safe && Migrating(r) && OldIsLiving(r, dead)
    requires Sweeping(r, Next(r, it).1)
    requires DeadIn(r, dead) == set x | x in DeadOf(Pending(r, it), dead)
    ensures var n := Next(r, it).1;
            && (n.entry.None? ==> DeadOf(Pending(r, it), dead) == [])
            && (n.entry.Some? ==> Onward(r, n, dead) && ToCome(r, n, dead) == DeadOf(Pending(r, it), dead))
  {
    hide WF, Next, Pending, Sweeping, DeadIn, OldIsLiving;
    NextTakes(r, it);
    NextInPlace(r, it);
    var n := Next(r, it).1;
    if n.entry.Some? {
      assert [n.entry.value] + Pending(r, n) == Pending(r, it);
    }
  }

  /** The dead behind the entry come as they did before it was deleted. */
  lemma DeadTurnPending(s: State, it: It, dead: set<Entry>)
    requires Onward(s, it, dead) && it.entry.value in dead && Used(s.t0) > 0
    ensures var r := Delete(s, it.entry.value.key);
            ItOk(r, it) && DeadOf(Pending(r, it), dead) == DeadOf(Pending(s, it), dead)
  {
    hide Flat, Suffix, ChainOf, Unique, Delete, Pending, Link;
    var e := it.entry.value;
    var r := Delete(s, e.key);
    DeadInSecond(s, it, dead);
    DeadTurnTables(s, e, dead);
    DeadTurnSaved(s, it, dead);
    SavedIsTail(s, it);
    SavedIsTail(r, it);
    RestDead(r.t1, s.t1, it.index + 1, dead);
    PendingHalves(s, it, dead);
    PendingHalves(r, it, dead);
  }

  lemma PendingHalves(s: State, it: It, dead: set<Entry>)
    requires ItOk(s, it) && it.table == 1
    ensures DeadOf(Pending(s, it), dead) == DeadOf(Saved(s, it), dead) + DeadOf(Rest(s.t1, it.index + 1), dead)
  {
    assert After(s, 1, it.index) == Rest(s.t1, it.index + 1);
    DeadOfSum(Saved(s, it), After(s, 1, it.index), dead);
  }

  lemma DeadInSecond(s: State, it: It, dead: set<Entry>)
    requires Onward(s, it, dead) && it.entry.value in dead
    ensures it.table == 1 && it.entry.value in Flat(s.t1) && Slot(it.entry.value.key, |s.t1|) == it.index
  {
    hide Pending, Link, ToCome;
    InFlat(TableOf(s, it.table), it.entry.value);
  }

  lemma DeadTurnSaved(s: State, it: It, dead: set<Entry>)
    requires Onward(s, it, dead) && it.entry.value in dead && Used(s.t0) > 0
    ensures var r := Delete(s, it.entry.value.key);
            ItOk(r, it) && Tail(r, it) == Tail(s, it)
  {
    hide Flat, Suffix, ChainOf, Unique, Delete, Pending, Link;
    var e := it.entry.value;
    var r := Delete(s, e.key);
    DeadInSecond(s, it, dead);
    DeadTurnTables(s, e, dead);
    if it.nextEntry.Some? {
      var n := it.nextEntry.value;
      var j := CalmStep(s);
      StepsAt(s, j);
      InFlat(s.t1, n);
      InTableInBag(s, 1, it.index, n);
      TablesDisjoint(s, n);
      InFlat(s.t0, n);
      TailStays(s, e, n, j);
      DeleteLocates(s, e, n);
      InSlot(r.t1, n);
    }
  }

  // ----- after the swap -----

  lemma NoMigrationLater(s: State, e: Entry)
    requires WF(s) && e in Bag(s) && !s.Rehashing()
    ensures !Delete(s, e.key).Rehashing() && StepIfFree(s) == s && Delete(s, e.key).t1 == []
  {
    HasTable(s, e);
    DeleteUnfolds(s, e.key);
  }

  /** Without a second table, nothing comes behind the last entry of the chain. */
  lemma NextEnds(s: State, it: It)
    requires !s.Rehashing() && s.t1 == [] && it.table == 1 && 0 <= it.index && it.nextEntry.None? && it.entry.Some?
    ensures Next(s, it).1.entry.None?
  {
    NextSkips(s, it);
  }

  /** The entry and what is linked behind it, as the pass that now ends with that chain meets them. */
  ghost function ChainEnd(s: State, e: Entry): Chain {
    Suffix(ChainOf(s, e), e)
  }

  lemma TurnEnd(s: State, it: It, dead: set<Entry>)
    requires Sweeping(s, it) && it.entry.Some? && it.nextEntry.Some? && !s.Rehashing()
    ensures var r, n := Turned(s, it, dead), it.nextEntry.value;
            !r.Rehashing() && ChainEnd(s, it.entry.value) == [it.entry.value] + ChainEnd(r, n)
  {
    hide WF, Flat, Suffix, ChainOf, Link, Bag, Delete;
    var e := it.entry.value;
    TailBehind(s, e);
    if e in dead {
      NoMigrationLater(s, e);
      StepsAt(s, 0);
      TailStays(s, e, it.nextEntry.value, 0);
    }
  }

  lemma DeadAfterTurn(s: State, it: It, dead: set<Entry>)
    requires Sweeping(s, it) && it.entry.Some?
    ensures DeadIn(Turned(s, it, dead), dead) == DeadIn(s, dead) - {it.entry.value}
  {
    hide Bag, Link;
    DeadGone(s, it, dead);
    if it.entry.value in dead {
      InDead(s, dead, it.entry.value);
      OneLess(s, Turned(s, it, dead), dead, it.entry.value);
    } else {
      KeptIsSame(s, it, dead);
    }
  }

  /** From the swap on, the sweep deletes the rest of one chain and nothing else. */
  lemma {:induction false} ChainEndsSweep(s: State, it: It, dead: set<Entry>)
    requires Sweeping(s, it) && it.entry.Some? && it.table == 1 && 0 <= it.index && !s.Rehashing()
    ensures DeadIn(SweepRun(s, it, dead), dead) == DeadIn(s, dead) - set x | x in ChainEnd(s, it.entry.value)
    decreases Phase(s), 2 - it.table, Ahead(s, it), Occupied(s, it), |Tail(s, it)|
  {
    hide WF, Bag, Turned, Next, Tail, Link, DeadIn, ChainEnd;
    var e := it.entry.value;
    var r := Turned(s, it, dead);
    var n := Next(r, it).1;
    TurnSweeps(s, it, dead);
    TurnBelow(s, it, dead);
    DeadAfterTurn(s, it, dead);
    if it.nextEntry.Some? {
      TurnEnd(s, it, dead);
      NextSaved(r, it);
      ChainEndsSweep(r, n, dead);
      EndsSplit(DeadIn(s, dead), e, ChainEnd(r, it.nextEntry.value));
    } else {
      TurnLast(s, it, dead);
      NextEnds(r, it);
    }
  }

  lemma EndsSplit(d: set<Entry>, e: Entry, c: Chain)
    ensures d - {e} - (set x | x in c) == d - set x | x in [e] + c
  {
  }

  lemma TurnLast(s: State, it: It, dead: set<Entry>)
    requires Sweeping(s, it) && it.entry.Some? && it.nextEntry.None? && !s.Rehashing()
    ensures var r := Turned(s, it, dead); !r.Rehashing() && r.t1 == []
    ensures ChainEnd(s, it.entry.value) == [it.entry.value]
  {
    hide Flat, Suffix, ChainOf, Link, Bag, Delete;
    TailBehind(s, it.entry.value);
    if it.entry.value in dead {
      NoMigrationLater(s, it.entry.value);
    }
  }

  lemma SwapStep(s: State)
    requires WF(s) && !Calm(s)
    ensures var p := State(s.t1, [], -1, s.iterators);
            StepIfFree(s) == p && WF(p) && Bag(p) == Bag(s)
    ensures forall i | 0 <= i < |s.t0| :: s.t0[i] == []
    ensures s.t1 != []
  {
    RehashOneKeeps(s);
    assert Rehash(s, 1) == Rehash(RehashOne(s), 0) == RehashOne(s);
    FlatEmpty(s.t0);
  }

  lemma SwapChain(s: State, n: Entry)
    requires WF(s) && n in Bag(s) && s.t1 != [] && forall i | 0 <= i < |s.t0| :: s.t0[i] == []
    ensures ChainOf(State(s.t1, [], -1, s.iterators), n) == ChainOf(s, n)
  {
    ChainOfIsThere(s, n);
  }

  /** The swap itself: the new table becomes the old one, and loses the entry. */
  lemma SwapTurn(s: State, e: Entry)
    requires WF(s) && e in Bag(s) && !Calm(s)
    ensures var r := Delete(s, e.key); !r.Rehashing() && r.t1 == []
    ensures Link(s, e).Some? ==> ChainEnd(Delete(s, e.key), Link(s, e).value) == ChainEnd(s, Link(s, e).value)
  {
    HasTable(s, e);
    DeleteUnfolds(s, e.key);
    SwapStep(s);
    TailBehind(s, e);
    hide WF, Flat, Suffix, Unique, Delete, StepIfFree, Bag, ChainOf, Link, Calm, UnlinkInTable, FindInTable;
    var p := State(s.t1, [], -1, s.iterators);
    if Link(s, e).Some? {
      SwapChain(s, Link(s, e).value);
      RemoveTail(p, e, Link(s, e).value);
    }
  }

  lemma SavedInBucket(s: State, it: It, x: Entry)
    requires WF(s) && ItOk(s, it) && it.entry.Some? && it.table == 1 && x in Saved(s, it)
    ensures Slot(x.key, |s.t1|) == it.index
  {
    SuffixMembers(s.t1[it.index], it.nextEntry.value, x);
  }

  lemma ToComeSplits(s: State, it: It, dead: set<Entry>, x: Entry)
    requires Onward(s, it, dead) && it.table == 1 && x in DeadIn(s, dead)
    ensures x == it.entry.value || x in Saved(s, it) || x in Rest(s.t1, it.index + 1)
  {
    assert x in [it.entry.value] + Pending(s, it);
  }

  lemma ToComeHead(s: State, it: It, dead: set<Entry>)
    requires ItOk(s, it) && it.entry.Some?
    ensures ToCome(s, it, dead) ==
            (if it.entry.value in dead then [it.entry.value] else []) + DeadOf(Pending(s, it), dead)
  {
    hide Pending;
    var l := [it.entry.value] + Pending(s, it);
    assert l[0] == it.entry.value && l[1..] == Pending(s, it);
  }

  /** All the dead lie in the bucket of the entry exactly if they are linked behind it. */
  lemma OneBucketIsSaved(s: State, it: It, dead: set<Entry>)
    requires Onward(s, it, dead) && it.table == 1 && it.entry.value in dead
    ensures s.t1 != []
    ensures OneBucket(ToCome(s, it, dead), 0, |s.t1|) <==>
            DeadIn(s, dead) - {it.entry.value} - (set x | x in Saved(s, it)) == {}
  {
    hide Saved, Pending, Rest, Link, Bag, Sweeping;
    var e, l := it.entry.value, ToCome(s, it, dead);
    assert WF(s) by { SweepingWF(s, it); }
    DeadInSecond(s, it, dead);
    ToComeHead(s, it, dead);
    assert l[0] == e;
    forall x | x in DeadIn(s, dead)
      ensures (x == e || (x in Saved(s, it) <==> Slot(x.key, |s.t1|) == it.index))
    {
      ToComeSplits(s, it, dead, x);
      if x in Saved(s, it) {
        SavedInBucket(s, it, x);
      } else if x != e {
        WFPlaced(s);
        RestBySlot(s.t1, it.index + 1, x);
      }
    }
    BucketOfAll(l, DeadIn(s, dead), Saved(s, it), |s.t1|);
  }

  lemma BucketOfAll(l: seq<Entry>, d: set<Entry>, saved: seq<Entry>, size: nat)
    requires size > 0 && l != [] && d == set x | x in l
    requires forall x | x in d && x != l[0] :: x in saved <==> Slot(x.key, size) == Slot(l[0].key, size)
    ensures OneBucket(l, 0, size) <==> d - {l[0]} - (set x | x in saved) == {}
  {
    var left := d - {l[0]} - set x | x in saved;
    if OneBucket(l, 0, size) {
      forall x | x in d && x != l[0]
        ensures x in saved
      {
        var k :| 0 <= k < |l| && l[k] == x;
      }
    } else {
      var k :| 0 <= k < |l| && Slot(l[k].key, size) != Slot(l[0].key, size);
      assert l[k] in left;
    }
  }

  lemma SweepingWF(s: State, it: It)
    requires Sweeping(s, it)
    ensures WF(s)
  {
  }

  /** What the sweep leaves when the deletion of this entry swaps the tables. */
  lemma SwapLeaves(s: State, it: It, dead: set<Entry>)
    requires Onward(s, it, dead) && it.entry.value in dead && !Calm(s)
    ensures DeadIn(SweepRun(s, it, dead), dead) ==
            DeadIn(s, dead) - {it.entry.value} - (set x | x in Saved(s, it))
  {
    hide WF, Bag, Next, Link, DeadIn, ToCome, Flat, Calm, ChainOf, Suffix, Delete;
    var r := Turned(s, it, dead);
    var n := Next(r, it).1;
    DeadInSecond(s, it, dead);
    TurnSweeps(s, it, dead);
    TurnBelow(s, it, dead);
    DeadAfterTurn(s, it, dead);
    SwapTurn(s, it.entry.value);
    SavedIsTail(s, it);
    if it.nextEntry.Some? {
      NextSaved(r, it);
      ChainEndsSweep(r, n, dead);
    } else {
      NextEnds(r, it);
    }
  }

  lemma SwapOutcome(s: State, it: It, dead: set<Entry>)
    requires Onward(s, it, dead) && it.entry.value in dead && !Calm(s)
    ensures s.t1 != []
    ensures DeadIn(SweepRun(s, it, dead), dead) == {} <==> OneBucket(ToCome(s, it, dead), 0, |s.t1|)
  {
    hide Onward, OneBucket, ToCome, SweepRun, DeadIn, Saved;
    SwapLeaves(s, it, dead);
    DeadInSecond(s, it, dead);
    OneBucketIsSaved(s, it, dead);
  }

  // ----- the whole sweep -----

  lemma LivingOnward(s: State, it: It, dead: set<Entry>)
    requires Onward(s, it, dead) && it.entry.value !in dead
    ensures var n := Next(s, it).1;
            && Turned(s, it, dead) == s && n.table <= 1
            && (n.entry.None? ==> ToCome(s, it, dead) == [] && DeadIn(s, dead) == {})
            && (n.entry.Some? ==> Onward(s, n, dead) && ToCome(s, n, dead) == ToCome(s, it, dead))
  {
    hide WF, Next, Pending, Link, DeadIn, ToCome;
    KeptIsSame(s, it, dead);
    TurnSweeps(s, it, dead);
    ToComeHead(s, it, dead);
    NextOnward(s, it, dead);
  }

  lemma DeadBehind(s: State, it: It, dead: set<Entry>)
    requires Onward(s, it, dead) && it.entry.value in dead && Used(s.t0) > 0
    ensures var r := Turned(s, it, dead);
            ItOk(r, it) && DeadIn(r, dead) == set x | x in DeadOf(Pending(r, it), dead)
  {
    var e, r := it.entry.value, Turned(s, it, dead);
    hide WF, Pending, Link, Turned, Bag, DeadIn, ItOk, ToCome, Sweeping, OldIsLiving, DeadOf;
    DeadTurnPending(s, it, dead);
    ToComeHead(s, it, dead);
    DeadAfterTurn(s, it, dead);
    DeadGone(s, it, dead);
    PendingPresent(r, it);
    NotAmong(Bag(r), Pending(r, it), e);
    WithoutHead(DeadIn(s, dead), DeadOf(Pending(r, it), dead), e);
  }

  lemma WithoutHead(d: set<Entry>, l: seq<Entry>, e: Entry)
    requires d == (set x | x in [e] + l) && e !in l
    ensures d - {e} == set x | x in l
  {
  }

  lemma DeadOnward(s: State, it: It, dead: set<Entry>)
    requires Onward(s, it, dead) && it.entry.value in dead && Used(s.t0) > 0
    ensures var r := Turned(s, it, dead);
            var n := Next(r, it).1;
            && NonEmpty(r.t0) == NonEmpty(s.t0) - 1 && |r.t1| == |s.t1| && n.table <= 1 && ToCome(s, it, dead) != []
            && (n.entry.None? ==> |ToCome(s, it, dead)| == 1 && DeadIn(r, dead) == {})
            && (n.entry.Some? ==> Onward(r, n, dead) && ToCome(r, n, dead) == ToCome(s, it, dead)[1..])
  {
    hide WF, Next, Pending, Link, Delete, DeadIn, ToCome, Flat, NonEmpty, OldIsLiving, Bag;
    var r := Turned(s, it, dead);
    DeadInSecond(s, it, dead);
    DeadTurnTables(s, it.entry.value, dead);
    TurnSweeps(s, it, dead);
    DeadTurnPending(s, it, dead);
    DeadBehind(s, it, dead);
    ToComeHead(s, it, dead);
    NextOnward(r, it, dead);
  }

  /** The dead are deleted one by one while each deletion empties one old bucket;
      the deletion after that swaps the tables, and only its own bucket is finished. */
  lemma {:induction false} OnwardRun(s: State, it: It, dead: set<Entry>)
    requires Onward(s, it, dead)
    ensures s.t1 != []
    ensures DeadIn(SweepRun(s, it, dead), dead) == {} <==>
            OneBucket(ToCome(s, it, dead), NonEmpty(s.t0), |s.t1|)
    decreases Phase(s), 2 - it.table, Ahead(s, it), Occupied(s, it), |Tail(s, it)|
  {
    hide Onward, Turned, Next, Tail, Link, DeadIn, ToCome, NonEmpty, Bag, Flat;
    OnwardTables(s, it, dead);
    if it.entry.value in dead && Used(s.t0) == 0 {
      FlatEmpty(s.t0);
      SwapOutcome(s, it, dead);
    } else {
      TurnSweeps(s, it, dead);
      TurnBelow(s, it, dead);
      var r := Turned(s, it, dead);
      var n := Next(r, it).1;
      if it.entry.value in dead {
        DeadOnward(s, it, dead);
        if n.entry.Some? {
          OnwardRun(r, n, dead);
          OneBucketStep(ToCome(s, it, dead), NonEmpty(s.t0), |s.t1|);
        }
      } else {
        LivingOnward(s, it, dead);
        if n.entry.Some? {
          OnwardRun(r, n, dead);
        }
      }
    }
  }

  lemma OnwardTables(s: State, it: It, dead: set<Entry>)
    requires Onward(s, it, dead)
    ensures Sweeping(s, it) && it.entry.Some? && ItOk(s, it) && WF(s) && s.t1 != [] && Migrating(s)
    ensures Used(s.t0) == 0 <==> !Calm(s)
    ensures NonEmpty(s.t0) == 0 <==> Used(s.t0) == 0
  {
    FlatEmpty(s.t0);
  }

  lemma AllComing(s: State, dead: set<Entry>)
    requires WF(s) && |s.t0| < MAX_BUCKETS && |s.t1| < MAX_BUCKETS && s.Rehashing() && OldIsLiving(s, dead)
    ensures ItOk(s, NewIt(false))
    ensures DeadOf(Pending(s, NewIt(false)), dead) == DeadOf(Flat(s.t1), dead)
    ensures DeadIn(s, dead) == set x | x in DeadOf(Flat(s.t1), dead)
  {
    assert s.t0[0..] == s.t0;
    DeadOfSum(Flat(s.t0), Flat(s.t1), dead);
    DeadOfLiving(Flat(s.t0), dead);
    assert Pending(s, NewIt(false)) == Flat(s.t0) + Flat(s.t1);
    forall x | x in dead
      ensures x in Bag(s) <==> x in Flat(s.t1)
    {
      InEither(s, x);
    }
  }

  lemma StartsOnward(s: State, dead: set<Entry>)
    requires WF(s) && |s.t0| < MAX_BUCKETS && |s.t1| < MAX_BUCKETS && Migrating(s) && OldIsLiving(s, dead)
    ensures var n := Next(s, NewIt(false)).1;
            && n.table <= 1
            && (n.entry.None? ==> DeadOf(Flat(s.t1), dead) == [] && DeadIn(s, dead) == {})
            && (n.entry.Some? ==> Onward(s, n, dead) && ToCome(s, n, dead) == DeadOf(Flat(s.t1), dead))
  {
    hide WF, Next, Pending, Link, DeadIn, OldIsLiving, Sweeping, Flat;
    SweepStarts(s);
    AllComing(s, dead);
    NextTakes(s, NewIt(false));
    NextLands(s, NewIt(false));
    var n := Next(s, NewIt(false)).1;
    if n.entry.Some? {
      assert [n.entry.value] + Pending(s, n) == Pending(s, NewIt(false));
    }
  }

  lemma CleanIsExact(s: State, dead: set<Entry>)
    requires WF(s)
    ensures (forall x :: x in Bag(SweepOf(s, dead)) <==> x in Bag(s) && x !in dead) <==>
            DeadIn(SweepOf(s, dead), dead) == {}
  {
    hide WF, Bag, SweepRun, Next;
    SweepStarts(s);
    SweepKeepsLiving(s, Next(s, NewIt(false)).1, dead);
    var r := SweepOf(s, dead);
    assert forall x | x in Bag(r) && x in dead :: x in DeadIn(r, dead);
  }

  /** With no dead entry in the old table, a sweep that starts during a rehash is
      exact if and only if the dead that follow the first B of them, where B
      counts the old buckets still to move, all lie in one bucket. */
  lemma SweepIsExactIff(s: State, dead: set<Entry>)
    requires WF(s) && |s.t0| < MAX_BUCKETS && |s.t1| < MAX_BUCKETS && Migrating(s) && OldIsLiving(s, dead)
    ensures s.t1 != []
    ensures (forall x :: x in Bag(SweepOf(s, dead)) <==> x in Bag(s) && x !in dead) <==>
            OneBucket(DeadOf(Flat(s.t1), dead), NonEmpty(s.t0), |s.t1|)
  {
    hide WF, Bag, SweepRun, Next, DeadIn, Onward, ToCome, Flat, NonEmpty, OldIsLiving;
    WFTables(s);
    CleanIsExact(s, dead);
    SweepStarts(s);
    StartsOnward(s, dead);
    var n := Next(s, NewIt(false)).1;
    if n.entry.Some? {
      OnwardRun(s, n, dead);
    } else {
      RunEnds(s, n, dead);
    }
  }

  lemma RunEnds(s: State, it: It, dead: set<Entry>)
    requires Sweeping(s, it) && it.entry.None?
    ensures SweepRun(s, it, dead) == s
  {
  }

  // ----- such a state is reached by four operations -----

  lemma ShortHash(key: Key, k: byte)
    requires key == [k]
    ensures Hash(key) == 177573 + k
  {
    assert key[..0] == [];
    assert Hash(key) == HashStep(Hash([]), k);
  }

  lemma FourAndEight()
    ensures IsPow2(4) && IsPow2(8)
  {
    assert IsPow2(1) && IsPow2(2);
  }

  /** Bytes that agree modulo 4 share a bucket of four, and not always one of eight. */
  lemma ShortKey(e: Entry, k: byte)
    requires e.key == [k]
    ensures Slot(e.key, 4) == (1 + k) % 4 && Slot(e.key, 8) == (5 + k) % 8
  {
    hide Hash, Slot, IsPow2;
    ShortHash(e.key, k);
    FourAndEight();
    SlotIsRemainder(e.key, 4);
    SlotIsRemainder(e.key, 8);
  }

  /** Settled, with a table of four buckets. */
  ghost predicate FourBuckets(s: State, b: multiset<Entry>) {
    WF(s) && !s.Rehashing() && s.iterators == 0 && |s.t0| == 4 && Bag(s) == b
  }

  lemma PreparedNew()
    ensures WF(NEW_DICT) && Room(NEW_DICT)
    ensures FourBuckets(Prepared(NEW_DICT, true), multiset{})
  {
    NewDictIsEmpty();
    assert Bag(NEW_DICT) == multiset{};
    hide WF, Bag;
    assert StepIfFree(NEW_DICT) == NEW_DICT;
    assert DoubleTo(4, 4) == 4;
  }

  lemma PreparedSettled(s: State)
    requires WF(s) && Room(s) && !s.Rehashing() && s.t0 != [] && Used(s.t0) < |s.t0|
    ensures Prepared(s, true) == s
  {
    hide WF, Bag;
    assert StepIfFree(s) == s;
  }

  lemma AddsTo(s: State, e: Entry, b: multiset<Entry>)
    requires WF(s) && Room(s) && FourBuckets(Prepared(s, true), b) && Bag(s) == b && forall x | x in b :: x.key != e.key
    ensures FourBuckets(Step(s, AddOp(e, true)), b + multiset{e})
  {
    var p := Prepared(s, true);
    assert !HasKey(s, e.key);
    hide WF, Bag, Prepared, Room, Slot, FindIn;
    LookupIsMembership(p, e.key);
  }

  lemma AddsFirst(e: Entry)
    ensures WF(NEW_DICT) && Allowed(NEW_DICT, AddOp(e, true))
    ensures FourBuckets(Step(NEW_DICT, AddOp(e, true)), multiset{e})
  {
    PreparedNew();
    assert Bag(NEW_DICT) == multiset{};
    hide Step, Room;
    AddsTo(NEW_DICT, e, multiset{});
    assert multiset{} + multiset{e} == multiset{e};
  }

  lemma AddsSecond(s: State, b: Entry, c: Entry)
    requires FourBuckets(s, multiset{b}) && b.key != c.key
    ensures Allowed(s, AddOp(c, true)) && FourBuckets(Step(s, AddOp(c, true)), multiset{b, c})
  {
    assert |Bag(s)| == Used(s.t0) + Used(s.t1);
    PreparedSettled(s);
    hide Step, Prepared, Bag, WF;
    AddsTo(s, c, multiset{b});
    assert multiset{b} + multiset{c} == multiset{b, c};
  }

  lemma StartsRehash(s: State, b: multiset<Entry>)
    requires FourBuckets(s, b) && |b| == 2
    ensures var r := Step(s, ExpandOp(8));
            && Allowed(s, ExpandOp(8)) && Migrating(r) && |r.t0| == 4 && |r.t1| == 8 && Bag(r) == b && Used(r.t1) == 0
  {
    assert |Bag(s)| == Used(s.t0) + Used(s.t1);
    assert NextPowerOf(8) == 8 by {
      assert DoubleTo(4, 8) == DoubleTo(8, 8) == 8;
    }
    EmptyUsed(8);
    hide WF, EmptyTable, Bag, Used, NextPowerOf;
  }

  lemma EmptyUsed(n: nat)
    ensures Used(EmptyTable(n)) == 0
  {
    FlatEmpty(EmptyTable(n));
  }

  /** If all entries share an old bucket, one step empties the old table. */
  lemma MovesAll(s: State, i: nat)
    requires WF(s) && Migrating(s) && Used(s.t0) > 0
    requires forall x | x in Bag(s) :: Slot(x.key, |s.t0|) == i
    ensures var r := Step(s, RehashOp(1));
            Migrating(r) && |r.t0| == |s.t0| && |r.t1| == |s.t1| && Used(r.t0) == 0 && Bag(r) == Bag(s)
  {
    var j := CalmStep(s);
    RehashOneKeeps(s);
    hide WF, MoveChain, Slot, Unique;
    MoveBucketShape(s, j);
    WFPlaced(s);
    forall k, x | 0 <= k < |s.t0| && x in s.t0[k]
      ensures k == i
    {
      InTableInBag(s, 0, k, x);
    }
    assert s.t0[j][0] in s.t0[j];
    OnlyBucket(s.t0, j);
  }

  lemma OnlyBucket(t: Buckets, i: nat)
    requires i < |t| && forall k, x | 0 <= k < |t| && x in t[k] :: k == i
    ensures Used(t[i := []]) == 0
  {
    assert forall k | 0 <= k < |t| && t[k] != [] :: t[k][0] in t[k];
    FlatEmpty(t[i := []]);
  }

  lemma MovesBoth(s: State, b: Entry, c: Entry)
    requires b.key == [4] && c.key == [0] && WF(s) && Bag(s) == multiset{b, c}
    requires Migrating(s) && |s.t0| == 4 && |s.t1| == 8 && Used(s.t1) == 0
    ensures var r := Step(s, RehashOp(1));
            Migrating(r) && |r.t0| == 4 && |r.t1| == 8 && Used(r.t0) == 0 && Bag(r) == multiset{b, c}
  {
    ShortKey(b, 4);
    ShortKey(c, 0);
    assert |Bag(s)| == Used(s.t0) + Used(s.t1);
    hide WF, Slot, Flat, Step;
    MovesAll(s, 1);
  }

  lemma RunFirst(s: State, op: Op, ops: seq<Op>)
    requires WF(s) && Allowed(s, op) && Legal(Step(s, op), ops)
    ensures Legal(s, [op] + ops) && Run(s, [op] + ops) == Run(Step(s, op), ops)
  {
    assert ([op] + ops)[1..] == ops;
    hide WF, Step;
  }

  /** The run that leads there. */
  ghost function Prelude(b: Entry, c: Entry): seq<Op> {
    [AddOp(b, true)] + ([AddOp(c, true)] + ([ExpandOp(8)] + ([RehashOp(1)] + [])))
  }

  lemma PreludeRuns(b: Entry, c: Entry)
    requires b.key == [4] && c.key == [0]
    ensures WF(NEW_DICT) && Legal(NEW_DICT, Prelude(b, c))
    ensures var s := Run(NEW_DICT, Prelude(b, c));
            && Migrating(s) && |s.t0| == 4 && |s.t1| == 8 && Used(s.t0) == 0 && Bag(s) == multiset{b, c}
  {
    hide WF, Step, Bag, Used, FourBuckets, Legal, Run, Room, CanExpand, ExpandFits;
    AddsFirst(b);
    var s1 := Step(NEW_DICT, AddOp(b, true));
    AddsSecond(s1, b, c);
    var s2 := Step(s1, AddOp(c, true));
    StartsRehash(s2, multiset{b, c});
    var s3 := Step(s2, ExpandOp(8));
    MovesBoth(s3, b, c);
    RunNone(Step(s3, RehashOp(1)));
    RunFirst(s3, RehashOp(1), []);
    RunFirst(s2, ExpandOp(8), [RehashOp(1)] + []);
    RunFirst(s1, AddOp(c, true), [ExpandOp(8)] + ([RehashOp(1)] + []));
    RunFirst(NEW_DICT, AddOp(b, true), [AddOp(c, true)] + ([ExpandOp(8)] + ([RehashOp(1)] + [])));
  }

  lemma RunNone(s: State)
    requires WF(s)
    ensures Legal(s, []) && Run(s, []) == s
  {
  }

  /** After four operations on a new dictionary a sweep misses a dead entry. */
  lemma SweepMisses(b: Entry, c: Entry)
    requires b.key == [4] && c.key == [0]
    ensures WF(NEW_DICT) && Legal(NEW_DICT, Prelude(b, c))
    ensures var s := Run(NEW_DICT, Prelude(b, c));
            Bag(s) == multiset{b, c} && DeadIn(SweepOf(s, {b, c}), {b, c}) != {}
  {
    PreludeRuns(b, c);
    var s := Run(NEW_DICT, Prelude(b, c));
    hide WF, Bag, Run, Legal, SweepOf;
    BothInSecond(s, b, c);
    SweepIsExactIff(s, {b, c});
    CleanIsExact(s, {b, c});
  }

  lemma BothInSecond(s: State, b: Entry, c: Entry)
    requires b.key == [4] && c.key == [0] && WF(s) && Migrating(s)
    requires |s.t0| == 4 && |s.t1| == 8 && Used(s.t0) == 0 && Bag(s) == multiset{b, c}
    ensures OldIsLiving(s, {b, c}) && !OneBucket(DeadOf(Flat(s.t1), {b, c}), NonEmpty(s.t0), |s.t1|)
  {
    FlatEmpty(s.t0);
    InEither(s, b);
    InEither(s, c);
    assert b in Bag(s) && c in Bag(s);
    hide WF, Bag, Slot, DeadOf, Flat;
    var l := DeadOf(Flat(s.t1), {b, c});
    Apart(l, b, c);
  }

  lemma Apart(l: seq<Entry>, b: Entry, c: Entry)
    requires b.key == [4] && c.key == [0] && b in l && c in l
    ensures !OneBucket(l, 0, 8)
  {
    ShortKey(b, 4);
    ShortKey(c, 0);
    hide Slot;
    var j :| 0 <= j < |l| && l[j] == b;
    var k :| 0 <= k < |l| && l[k] == c;
  }
}
