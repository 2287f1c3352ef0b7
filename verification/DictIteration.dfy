/** Iterators over a dictionary that may be migrating and changing. */
module DictIteration {
  import opened Wrappers
  import opened DictModel

  datatype It = It(table: nat, index: int, safe: bool, entry: Option<Entry>, nextEntry: Option<Entry>) {
    /** The first dict_next leaves this state for good. */
    predicate Started() {
      !(index == -1 && table == 0)
    }
  }

  function NewIt(safe: bool): It {
    It(0, -1, safe, None, None)
  }

  function TableOf(s: State, table: nat): Buckets {
    if table == 0 then s.t0 else s.t1
  }

  /** The chain from a given entry on. */
  function Suffix(c: Chain, e: Entry): (r: Chain)
    ensures |r| <= |c| && (e in c ==> r != [] && r[0] == e)
  {
    if c == [] || c[0] == e then c else Suffix(c[1..], e)
  }

  function Second(c: Chain): Option<Entry> {
    if |c| > 1 then Some(c[1]) else None
  }

  /** The next field of an entry that is linked in chain c. */
  function Successor(c: Chain, e: Entry): Option<Entry> {
    Second(Suffix(c, e))
  }

  /** The next field of an entry, in whichever table it is linked. */
  function Link(s: State, e: Entry): Option<Entry> {
    if s.t0 != [] && e in s.t0[Slot(e.key, |s.t0|)] then Successor(s.t0[Slot(e.key, |s.t0|)], e)
    else if s.t1 != [] && e in s.t1[Slot(e.key, |s.t1|)] then Successor(s.t1[Slot(e.key, |s.t1|)], e)
    else None
  }

  /** A table size as dict_next compares it, cast to a signed int. */
  function Signed(size: nat): int {
    if size < MAX_BUCKETS then size else size - 2 * MAX_BUCKETS
  }

  /** dict_next touches no freed entry: the saved successor is still there. */
  ghost predicate Alive(s: State, it: It) {
    && it.table <= 1 && -1 <= it.index
    && (it.entry.Some? && it.nextEntry.Some? ==> it.nextEntry.value in Bag(s))
  }

  /** An iterator between the start and the end of its pass, on tables whose
      sizes survive the cast to a signed int. */
  ghost predicate ItOk(s: State, it: It) {
    && |s.t0| < MAX_BUCKETS && |s.t1| < MAX_BUCKETS
    && it.table <= 1 && (it.table == 1 ==> s.Rehashing())
    && -1 <= it.index <= |TableOf(s, it.table)|
    && (it.entry.Some? ==> 0 <= it.index < |TableOf(s, it.table)|)
    && (it.entry.Some? && it.nextEntry.Some? ==> it.nextEntry.value in TableOf(s, it.table)[it.index])
  }

  function Ahead(s: State, it: It): nat
    requires it.table <= 1
  {
    if it.index < |TableOf(s, it.table)| then |TableOf(s, it.table)| - it.index else 0
  }

  /** dict_next: the counter, the iterator and the entry returned. */
  function Next(s: State, it: It): (r: (State, It, Option<Entry>))
    requires it.table <= 1 && -1 <= it.index
    decreases 2 - it.table, Ahead(s, it), if it.entry.Some? then 1 else 0
  {
    if it.entry.Some? then
      if it.nextEntry.Some? then
        Return(s, it, it.nextEntry.value)
      else
        Next(s, it.(entry := None))
    else
      var s1 := if it.safe && !it.Started() then s.(iterators := s.iterators + 1) else s;
      var index := it.index + 1;
      if index >= Signed(|TableOf(s, it.table)|) then
        if s.Rehashing() && it.table == 0 then
          Visit(s1, it.(table := 1, index := 0))
        else
          (s1, it.(index := index), None)
      else
        Visit(s1, it.(index := index))
  }

  /** Takes the head of the current bucket, or goes on if it is empty. */
  function Visit(s: State, it: It): (State, It, Option<Entry>)
    requires it.table <= 1 && 0 <= it.index && it.entry.None?
    decreases 2 - it.table, Ahead(s, it), 1
  {
    var t := TableOf(s, it.table);
    if it.index < |t| && t[it.index] != [] then Return(s, it, t[it.index][0])
    else if it.index < |t| then Next(s, it)
    else (s, it, None)
  }

  function Return(s: State, it: It, e: Entry): (State, It, Option<Entry>) {
    (s, it.(entry := Some(e), nextEntry := Link(s, e)), Some(e))
  }

  // ----- what is still to come -----

  /** The entries a pass has yet to return, in the order it will return them. */
  ghost function Pending(s: State, it: It): seq<Entry>
    requires ItOk(s, it)
  {
    Saved(s, it) + After(s, it.table, it.index)
  }

  /** The rest of the chain the iterator stands in, behind the entry it returned. */
  ghost function Saved(s: State, it: It): seq<Entry>
    requires ItOk(s, it)
  {
    if it.entry.Some? && it.nextEntry.Some? then Suffix(TableOf(s, it.table)[it.index], it.nextEntry.value) else []
  }

  /** The entries of the buckets behind a position. */
  ghost function After(s: State, table: nat, index: int): seq<Entry>
    requires -1 <= index <= |TableOf(s, table)|
  {
    Rest(TableOf(s, table), index + 1) + (if table == 0 && s.Rehashing() then Flat(s.t1) else [])
  }

  ghost function Rest(t: Buckets, i: nat): seq<Entry> {
    if i <= |t| then Flat(t[i..]) else []
  }

  lemma RestStep(t: Buckets, i: nat)
    requires i < |t|
    ensures Rest(t, i) == t[i] + Rest(t, i + 1)
  {
    assert t[i..][0] == t[i] && t[i..][1..] == t[i + 1..];
  }

  ghost predicate NoDup(c: Chain) {
    forall j, k | 0 <= j < k < |c| :: c[j] != c[k]
  }

  lemma {:induction false} SuffixAt(c: Chain, j: nat)
    requires NoDup(c) && j < |c|
    ensures Suffix(c, c[j]) == c[j..]
  {
    if j > 0 {
      SuffixAt(c[1..], j - 1);
    }
  }

  lemma {:induction false} SuffixPosition(c: Chain, e: Entry) returns (j: nat)
    requires e in c
    ensures j < |c| && c[j] == e && Suffix(c, e) == c[j..]
  {
    if c[0] == e {
      j := 0;
    } else {
      j := SuffixPosition(c[1..], e);
      j := j + 1;
    }
  }

  lemma CountedTwice(c: Chain, j: nat, k: nat)
    requires j < k < |c| && c[j] == c[k]
    ensures multiset(c)[c[j]] >= 2
  {
    assert c == c[..k] + c[k..];
    assert c[j] in c[..k] && c[k] in c[k..];
    assert c[j] in multiset(c[..k]) && c[j] in multiset(c[k..]);
  }

  lemma BagNoDup(c: Chain)
    requires forall x | x in c :: multiset(c)[x] == 1
    ensures NoDup(c)
  {
    forall j, k | 0 <= j < k < |c|
      ensures c[j] != c[k]
    {
      if c[j] == c[k] {
        CountedTwice(c, j, k);
      }
    }
  }

  lemma ChainsNoDup(s: State, table: nat, i: nat)
    requires WF(s) && table <= 1 && i < |TableOf(s, table)|
    ensures NoDup(TableOf(s, table)[i])
  {
    var t := TableOf(s, table);
    FlatUpdate(t, i, []);
    forall x | x in t[i]
      ensures multiset(t[i])[x] == 1
    {
      assert x in multiset(t[i]);
      assert multiset(t[i])[x] <= Bag(s)[x];
    }
    BagNoDup(t[i]);
  }

  // ----- dict_next takes the head of what is pending -----

  /** The effect of a call on the counter of running safe iterators. */
  ghost function Counted(s: State, it: It): State {
    if it.safe && !it.Started() then s.(iterators := s.iterators + 1) else s
  }

  lemma InTableInBag(s: State, table: nat, i: nat, n: Entry)
    requires table <= 1 && i < |TableOf(s, table)| && n in TableOf(s, table)[i]
    ensures n in Bag(s)
  {
    InFlat(TableOf(s, table), n);
  }

  lemma OkIsAlive(s: State, it: It)
    requires ItOk(s, it)
    ensures Alive(s, it)
  {
    if it.entry.Some? && it.nextEntry.Some? {
      InTableInBag(s, it.table, it.index, it.nextEntry.value);
    }
  }

  lemma LinkInChain(s: State, table: nat, i: nat, e: Entry)
    requires WF(s) && table <= 1 && i < |TableOf(s, table)| && e in TableOf(s, table)[i]
    ensures Link(s, e) == Successor(TableOf(s, table)[i], e)
  {
    hide Successor;
    if table == 1 {
      InFlat(s.t1, e);
      InFlat(s.t0, e);
      TablesDisjoint(s, e);
    }
  }

  lemma ReturnTakes(s: State, it: It, c: Chain, j: nat)
    requires WF(s) && |s.t0| < MAX_BUCKETS && |s.t1| < MAX_BUCKETS
    requires it.table <= 1 && (it.table == 1 ==> s.Rehashing())
    requires 0 <= it.index < |TableOf(s, it.table)| && c == TableOf(s, it.table)[it.index] && j < |c|
    ensures var r := Return(s, it, c[j]);
            && r.0 == s && r.2 == Some(c[j]) && r.1.entry == r.2
            && r.1.safe == it.safe && r.1.Started()
            && ItOk(s, r.1)
            && Pending(s, r.1) == c[j + 1..] + After(s, it.table, it.index)
  {
    hide WF, Link;
    LinkInChain(s, it.table, it.index, c[j]);
    ChainsNoDup(s, it.table, it.index);
    SuffixAt(c, j);
    if j + 1 < |c| {
      SuffixAt(c, j + 1);
    }
  }

  ghost predicate Takes(s: State, it: It, pending: seq<Entry>, r: (State, It, Option<Entry>)) {
    && r.0 == s
    && r.1.safe == it.safe && r.1.Started()
    && r.1.entry == r.2
    && (pending == [] ==> r.2.None?)
    && (pending != [] ==>
          && r.2 == Some(pending[0])
          && ItOk(s, r.1)
          && Pending(s, r.1) == pending[1..])
  }

  ghost predicate Visitable(s: State, it: It) {
    && |s.t0| < MAX_BUCKETS && |s.t1| < MAX_BUCKETS
    && it.table <= 1 && (it.table == 1 ==> s.Rehashing())
    && 0 <= it.index < |TableOf(s, it.table)| && it.entry.None?
  }

  lemma {:induction false} VisitTakes(s: State, it: It)
    requires WF(s) && Visitable(s, it)
    ensures Takes(s, it, TableOf(s, it.table)[it.index] + After(s, it.table, it.index), Visit(s, it))
    decreases 2 - it.table, Ahead(s, it), 1
  {
    hide WF;
    var c := TableOf(s, it.table)[it.index];
    if c != [] {
      ReturnTakes(s, it, c, 0);
    } else {
      NextTakes(s, it);
    }
  }

  lemma CountedKeeps(s: State, it: It)
    requires WF(s)
    ensures WF(Counted(s, it)) && Bag(Counted(s, it)) == Bag(s)
  {
  }

  lemma WFTables(s: State)
    requires WF(s)
    ensures s.Rehashing() <==> s.t1 != []
  {
  }

  lemma TakesSaved(s: State, it: It)
    requires WF(s) && ItOk(s, it) && it.entry.Some? && it.nextEntry.Some?
    ensures Takes(s, it, Pending(s, it), Next(s, it))
  {
    hide WF, Next, Return, Link, After;
    NextUnfolds(s, it);
    var c := TableOf(s, it.table)[it.index];
    var j := SuffixPosition(c, it.nextEntry.value);
    ReturnTakes(s, it, c, j);
    assert Pending(s, it) == c[j..] + After(s, it.table, it.index);
  }

  lemma PendingHere(s: State, it: It)
    requires ItOk(s, it) && it.entry.None? && it.index + 1 < |TableOf(s, it.table)|
    ensures Pending(s, it) == TableOf(s, it.table)[it.index + 1] + After(Counted(s, it), it.table, it.index + 1)
  {
    RestStep(TableOf(s, it.table), it.index + 1);
  }

  lemma PendingThere(s: State, it: It)
    requires ItOk(s, it) && it.entry.None? && it.index + 1 >= |TableOf(s, it.table)|
    requires s.Rehashing() && it.table == 0 && s.t1 != []
    ensures Pending(s, it) == s.t1[0] + After(Counted(s, it), 1, 0)
  {
    RestStep(s.t1, 0);
    assert s.t1[0..] == s.t1;
  }

  lemma NextUnfolds(s: State, it: It)
    requires ItOk(s, it)
    ensures Next(s, it) ==
            if it.entry.Some? then
              if it.nextEntry.Some? then Return(s, it, it.nextEntry.value) else Next(s, it.(entry := None))
            else if it.index + 1 < |TableOf(s, it.table)| then Visit(Counted(s, it), it.(index := it.index + 1))
            else if s.Rehashing() && it.table == 0 then Visit(Counted(s, it), it.(table := 1, index := 0))
            else (Counted(s, it), it.(index := it.index + 1), None)
  {
  }

  lemma {:induction false} NextTakes(s: State, it: It)
    requires WF(s) && ItOk(s, it)
    ensures Takes(Counted(s, it), it, Pending(s, it), Next(s, it))
    decreases 2 - it.table, Ahead(s, it), if it.entry.Some? then 1 else 0
  {
    hide WF, After, Pending, Rest, Visit, Return, Link, Next, Takes, TableOf, Bag;
    WFTables(s);
    CountedKeeps(s, it);
    NextUnfolds(s, it);
    var i := it.index + 1;
    if it.entry.Some? {
      if it.nextEntry.Some? {
        TakesSaved(s, it);
      } else {
        NextTakes(s, it.(entry := None));
        PendingSkips(s, it);
        TakesOnlySafe(Counted(s, it), it, it.(entry := None), Pending(s, it), Next(s, it));
      }
    } else if i < |TableOf(s, it.table)| {
      PendingHere(s, it);
      SameTable(s, Counted(s, it), it.table);
      VisitTakes(Counted(s, it), it.(index := i));
      TakesOnlySafe(Counted(s, it), it, it.(index := i), Pending(s, it), Next(s, it));
    } else if s.Rehashing() && it.table == 0 {
      PendingThere(s, it);
      SecondTable(Counted(s, it));
      VisitTakes(Counted(s, it), it.(table := 1, index := 0));
      TakesOnlySafe(Counted(s, it), it, it.(table := 1, index := 0), Pending(s, it), Next(s, it));
    } else {
      PendingOver(s, it);
      TakesNone(s, it);
    }
  }

  lemma SameTable(s: State, r: State, table: nat)
    requires s.t0 == r.t0 && s.t1 == r.t1
    ensures TableOf(s, table) == TableOf(r, table)
  {
  }

  lemma SecondTable(s: State)
    ensures TableOf(s, 1) == s.t1
  {
  }

  /** Of the iterator before the call only its kind matters. */
  lemma TakesOnlySafe(s: State, it: It, it': It, pending: seq<Entry>, r: (State, It, Option<Entry>))
    requires it.safe == it'.safe
    ensures Takes(s, it, pending, r) <==> Takes(s, it', pending, r)
  {
  }

  lemma TakesNone(s: State, it: It)
    requires ItOk(s, it) && it.entry.None? && it.index + 1 >= |TableOf(s, it.table)|
    requires !s.Rehashing() || it.table == 1
    ensures Takes(Counted(s, it), it, [], (Counted(s, it), it.(index := it.index + 1), None))
  {
  }

  lemma PendingSkips(s: State, it: It)
    requires ItOk(s, it) && it.entry.Some? && it.nextEntry.None?
    ensures Pending(s, it.(entry := None)) == Pending(s, it)
  {
  }

  lemma PendingOver(s: State, it: It)
    requires ItOk(s, it) && it.entry.None? && it.index + 1 >= |TableOf(s, it.table)|
    requires !s.Rehashing() || it.table == 1
    ensures Pending(s, it) == []
  {
    if it.index + 1 == |TableOf(s, it.table)| {
      assert TableOf(s, it.table)[it.index + 1..] == [];
    }
  }
}
