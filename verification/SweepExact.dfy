/** When a sweep with a plain iterator leaves no dead entry. */
module SweepExact {
  import opened Wrappers
  import opened Bytes
  import opened DictModel
  import opened DictOps
  import opened DictIteration
  import opened DictSafePass
  import opened DictSweep

  /** The dead entries still stored. */
  ghost function DeadIn(s: State, dead: set<Entry>): set<Entry> {
    set x | x in dead && x in Bag(s)
  }

  /** The iterator will come to that entry if the tables are not swapped. */
  ghost predicate Due(s: State, it: It, x: Entry) {
    || x in Tail(s, it)
    || (it.table == 0 && x in Flat(s.t0) && s.t0 != [] && Slot(x.key, |s.t0|) > it.index)
    || (it.table == 0 && s.Rehashing() && x in Flat(s.t1))
    || (it.table == 1 && x in Flat(s.t1) && s.t1 != [] && Slot(x.key, |s.t1|) > it.index)
  }

  ghost predicate Positioned(s: State, it: It) {
    && |s.t0| < MAX_BUCKETS && |s.t1| < MAX_BUCKETS
    && it.table <= 1 && (it.table == 1 ==> s.Rehashing()) && -1 <= it.index < |TableOf(s, it.table)|
  }

  /** With deletions that migrate, few enough of them that only the last can swap. */
  ghost predicate Budget(s: State, dead: set<Entry>) {
    Migrating(s) ==> 2 * |DeadIn(s, dead)| <= NonEmpty(s.t0) + 3
  }

  ghost predicate OnCourse(s: State, it: It, dead: set<Entry>) {
    || DeadIn(s, dead) == {}
    || (it.entry.Some? && Positioned(s, it) && Budget(s, dead)
        && forall x | x in DeadIn(s, dead) :: Some(x) == it.entry || Due(s, it, x))
  }

  // ----- the turn -----

  lemma DueStays(s: State, it: It, x: Entry)
    requires Sweeping(s, it) && it.entry.Some? && Calm(s) && Positioned(s, it)
    requires x in Bag(s) && x != it.entry.value && Due(s, it, x)
    ensures Due(Delete(s, it.entry.value.key), it, x)
  {
    hide Flat, Delete, Link, Suffix, ChainOf, Steps, Unique, Slot, MoveBucket;
    var e := it.entry.value;
    DeleteLocates(s, e, x);
    if x in Tail(s, it) {
      var n := it.nextEntry.value;
      var j := CalmStep(s);
      StepsAt(s, j);
      TailBehind(s, e);
      if Moves(s, j, n) {
        TailMoves(s, e, n, j);
        InFlat(s.t0, e);
      } else {
        TailStays(s, e, n, j);
      }
    }
  }

  lemma NonEmptyUnlink(t: Buckets, key: Key)
    requires t != []
    ensures NonEmpty(UnlinkInTable(t, key)) >= NonEmpty(t) - 1
  {
    var i := Slot(key, |t|);
    NonEmptyUpdate(t, i, Unlink(t[i], key));
  }

  /** A deletion empties at most two old buckets: the one it migrates and the one it unlinks from. */
  lemma DeleteEmptiesTwo(s: State, e: Entry)
    requires WF(s) && Migrating(s) && Used(s.t0) > 0 && e in Bag(s)
    ensures NonEmpty(Delete(s, e.key).t0) >= NonEmpty(s.t0) - 2
  {
    hide WF, Flat, StepIfFree, Delete, UnlinkInTable, NonEmpty, FindInTable, MoveChain, Bag, Used, Slot;
    HasTable(s, e);
    DeleteUnfolds(s, e.key);
    var j := CalmStep(s);
    NonEmptyUpdate(s.t0, j, []);
    NonEmptyUnlink(MoveBucket(s, j).t0, e.key);
  }

  lemma OneLess(s: State, r: State, dead: set<Entry>, e: Entry)
    requires e in DeadIn(s, dead) && Bag(r) == Bag(s) - multiset{e} && e !in Bag(r)
    ensures DeadIn(r, dead) == DeadIn(s, dead) - {e} && |DeadIn(r, dead)| == |DeadIn(s, dead)| - 1
  {
    hide Bag;
    assert forall x | x != e :: x in Bag(r) <==> x in Bag(s);
  }

  lemma BudgetCalm(s: State, dead: set<Entry>)
    requires WF(s) && Budget(s, dead) && |DeadIn(s, dead)| >= 2
    ensures Calm(s)
  {
    FlatEmpty(s.t0);
  }

  /** A dead entry is deleted; what is dead and still stored is due as before. */
  lemma DeadTurn(s: State, it: It, dead: set<Entry>)
    requires Sweeping(s, it) && it.entry.Some? && it.entry.value in dead && OnCourse(s, it, dead)
    ensures var r := Turned(s, it, dead);
            || DeadIn(r, dead) == {}
            || (Positioned(r, it) && Budget(r, dead) && forall x | x in DeadIn(r, dead) :: Due(r, it, x))
  {
    hide Due, WF, Bag, Delete, Used, NonEmpty;
    var e, r := it.entry.value, Turned(s, it, dead);
    DeadGone(s, it, dead);
    InDead(s, dead, e);
    OneLess(s, r, dead, e);
    if |DeadIn(s, dead)| >= 2 {
      BudgetCalm(s, dead);
      SomeoneElse(DeadIn(s, dead), e);
      var y :| y in DeadIn(s, dead) && y != e;
      DeleteLocates(s, e, y);
      if Migrating(s) {
        DeleteEmptiesTwo(s, e);
      }
      forall x | x in DeadIn(r, dead)
        ensures Due(r, it, x)
      {
        DueStays(s, it, x);
      }
    }
  }

  lemma InDead(s: State, dead: set<Entry>, e: Entry)
    requires e in dead && e in Bag(s)
    ensures e in DeadIn(s, dead)
  {
  }

  lemma SomeoneElse(d: set<Entry>, e: Entry)
    requires |d| >= 2
    ensures exists y :: y in d && y != e
  {
    if forall y | y in d :: y == e {
      assert d <= {e};
      SubsetSize(d, {e});
    }
  }

  lemma {:induction false} SubsetSize(a: set<Entry>, b: set<Entry>)
    requires a <= b
    ensures |a| <= |b|
  {
    assert b == a + (b - a);
  }

  // ----- the next call -----

  lemma RestBySlot(t: Buckets, i: nat, x: Entry)
    requires Placed(t) && i <= |t|
    ensures x in Rest(t, i) <==> t != [] && x in Flat(t) && Slot(x.key, |t|) >= i
  {
    InFlat(t, x);
    InFlat(t[i..], x);
    if t != [] && x in Flat(t) && Slot(x.key, |t|) >= i {
      assert t[i..][Slot(x.key, |t|) - i] == t[Slot(x.key, |t|)];
    }
  }

  lemma AfterBySlot(s: State, it: It, x: Entry)
    requires WF(s) && Positioned(s, it)
    ensures x in After(s, it.table, it.index) <==>
            || (TableOf(s, it.table) != [] && x in Flat(TableOf(s, it.table))
                && Slot(x.key, |TableOf(s, it.table)|) > it.index)
            || (it.table == 0 && s.Rehashing() && x in Flat(s.t1))
  {
    hide Flat, Slot, Rest, Unique;
    RestBySlot(TableOf(s, it.table), it.index + 1, x);
  }

  lemma SavedIsTail(s: State, it: It)
    requires WF(s) && ItOk(s, it) && it.entry.Some?
    ensures Saved(s, it) == Tail(s, it)
  {
    if it.nextEntry.Some? {
      var n := it.nextEntry.value;
      InTableInBag(s, it.table, it.index, n);
      ChainOfIsThere(s, n);
      InFlat(TableOf(s, it.table), n);
      TablesDisjoint(s, n);
      InFlat(s.t0, n);
    }
  }

  /** Whatever is pending at a proper position is due, and the other way round. */
  lemma PendingIsDue(s: State, it: It, x: Entry)
    requires WF(s) && ItOk(s, it) && Positioned(s, it) && it.entry.Some?
    ensures x in Pending(s, it) <==> Due(s, it, x)
  {
    hide Saved, Tail, After, Flat, Slot;
    SavedIsTail(s, it);
    AfterBySlot(s, it, x);
    WFTables(s);
  }

  /** A call of dict_next returns or leaves due whatever was due. */
  lemma NextCovers(s: State, it: It, x: Entry)
    requires WF(s) && !it.safe && it.entry.Some? && Positioned(s, it)
    requires it.nextEntry.Some? ==> it.nextEntry.value in Bag(s)
    ensures var n := Next(s, it).1;
            && (n.entry.Some? ==> Positioned(s, n))
            && (Due(s, it, x) ==> n.entry == Some(x) || (n.entry.Some? && Due(s, n, x)))
  {
    hide WF, Bag, Flat, Slot, Pending, Suffix, ChainOf, Link, After;
    if it.nextEntry.Some? {
      NextSaved(s, it);
      TailBehind(s, it.nextEntry.value);
    } else {
      var it0 := it.(entry := None);
      NextSkips(s, it);
      NextTakes(s, it0);
      AfterBySlot(s, it, x);
      PendingWithout(s, it0);
      var n := Next(s, it).1;
      if Due(s, it, x) {
        DueWithout(s, it, x);
      }
      hide Next;
      if n.entry.Some? {
        PendingIsDue(s, n, x);
      }
    }
  }

  lemma PendingWithout(s: State, it: It)
    requires ItOk(s, it) && it.entry.None?
    ensures Pending(s, it) == After(s, it.table, it.index)
  {
  }

  lemma DueWithout(s: State, it: It, x: Entry)
    requires Positioned(s, it) && it.nextEntry.None? && Due(s, it, x)
    ensures || (TableOf(s, it.table) != [] && x in Flat(TableOf(s, it.table))
                && Slot(x.key, |TableOf(s, it.table)|) > it.index)
            || (it.table == 0 && s.Rehashing() && x in Flat(s.t1))
  {
  }

  // ----- the sweep -----

  lemma TurnOnCourse(s: State, it: It, dead: set<Entry>)
    requires Sweeping(s, it) && it.entry.Some? && OnCourse(s, it, dead)
    ensures var r := Turned(s, it, dead); OnCourse(r, Next(r, it).1, dead)
  {
    hide Due, Next, Delete, Budget, Link, WF, Bag, DeadIn;
    var r := Turned(s, it, dead);
    TurnSweeps(s, it, dead);
    LivingTurn(s, it, dead);
    if DeadIn(r, dead) != {} {
      forall x | x in DeadIn(r, dead)
        ensures var n := Next(r, it).1; n.entry == Some(x) || (n.entry.Some? && Due(r, n, x))
      {
        NextCovers(r, it, x);
      }
      var y :| y in DeadIn(r, dead);
      NextCovers(r, it, y);
    }
  }

  lemma LivingTurn(s: State, it: It, dead: set<Entry>)
    requires Sweeping(s, it) && it.entry.Some? && OnCourse(s, it, dead)
    ensures var r := Turned(s, it, dead);
            || DeadIn(r, dead) == {}
            || (Positioned(r, it) && Budget(r, dead) && forall x | x in DeadIn(r, dead) :: Due(r, it, x))
  {
    hide Due, Delete, Budget, Link, Bag, WF;
    if it.entry.value in dead {
      DeadTurn(s, it, dead);
    } else {
      assert forall x | x in DeadIn(s, dead) :: x in dead;
    }
  }

  /** Nothing that is not dead is lost, and nothing comes in. */
  lemma {:induction false} SweepKeepsLiving(s: State, it: It, dead: set<Entry>)
    requires Sweeping(s, it)
    ensures var r := SweepRun(s, it, dead);
            && WF(r)
            && (forall x | x in Bag(r) :: x in Bag(s))
            && (forall x | x in Bag(s) && x !in dead :: x in Bag(r))
    decreases Phase(s), 2 - it.table, Ahead(s, it), Occupied(s, it), |Tail(s, it)|
  {
    if it.entry.Some? {
      hide WF, Bag, Turned, Next, Tail, Link;
      TurnSweeps(s, it, dead);
      TurnBelow(s, it, dead);
      DeadGone(s, it, dead);
      var r := Turned(s, it, dead);
      var n := Next(r, it).1;
      if n.entry.Some? {
        SweepKeepsLiving(r, n, dead);
      }
    }
  }

  lemma {:induction false} SweepEndsClean(s: State, it: It, dead: set<Entry>)
    requires Sweeping(s, it) && OnCourse(s, it, dead)
    ensures DeadIn(SweepRun(s, it, dead), dead) == {}
    decreases Phase(s), 2 - it.table, Ahead(s, it), Occupied(s, it), |Tail(s, it)|
  {
    if it.entry.Some? {
      hide WF, Bag, Turned, Next, Tail, Link, DeadIn, Due, Budget, Positioned;
      TurnSweeps(s, it, dead);
      TurnBelow(s, it, dead);
      TurnOnCourse(s, it, dead);
      var r := Turned(s, it, dead);
      var n := Next(r, it).1;
      if n.entry.Some? {
        SweepEndsClean(r, n, dead);
      }
    }
  }

  lemma SweepStarts(s: State)
    requires WF(s)
    ensures var r := Next(s, NewIt(false)); r.0 == s && r.1.entry == r.2 && Sweeping(s, r.1)
  {
    hide WF, Next, Link;
    NextLands(s, NewIt(false));
    LandedSweeping(s, NewIt(false), Next(s, NewIt(false)).1);
  }

  /** A whole sweep: the first call of dict_next, and all the turns. */
  ghost function SweepOf(s: State, dead: set<Entry>): State
    requires WF(s)
  {
    SweepStarts(s);
    SweepRun(s, Next(s, NewIt(false)).1, dead)
  }

  lemma StartsOnCourse(s: State, dead: set<Entry>)
    requires WF(s) && |s.t0| < MAX_BUCKETS && |s.t1| < MAX_BUCKETS && Budget(s, dead)
    ensures OnCourse(s, Next(s, NewIt(false)).1, dead)
  {
    hide WF, Next, Pending, Bag, Due, Budget, Link;
    var n := Next(s, NewIt(false)).1;
    PendingAtStart(s, false);
    FreshItOk(s, false);
    NextTakes(s, NewIt(false));
    var all := Pending(s, NewIt(false));
    forall x | x in DeadIn(s, dead)
      ensures n.entry.Some? && Positioned(s, n) && (n.entry == Some(x) || Due(s, n, x))
    {
      assert x in multiset(all);
      PendingIsDue(s, n, x);
    }
    if DeadIn(s, dead) != {} {
      var y :| y in DeadIn(s, dead);
    }
  }

  /** A sweep leaves exactly what is not dead if its deletions perform no rehash
      steps, or are so few that only the last of them can swap the tables. */
  lemma SweepIsExact(s: State, dead: set<Entry>)
    requires WF(s) && |s.t0| < MAX_BUCKETS && |s.t1| < MAX_BUCKETS && Budget(s, dead)
    ensures WF(SweepOf(s, dead))
    ensures forall x :: x in Bag(SweepOf(s, dead)) <==> x in Bag(s) && x !in dead
  {
    hide WF, Bag, SweepRun, OnCourse, Next;
    SweepStarts(s);
    StartsOnCourse(s, dead);
    var it := Next(s, NewIt(false)).1;
    SweepKeepsLiving(s, it, dead);
    SweepEndsClean(s, it, dead);
    var r := SweepOf(s, dead);
    assert forall x | x in Bag(r) :: x in dead ==> x in DeadIn(r, dead);
  }
}
