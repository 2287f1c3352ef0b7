/** The operations of dict.c as functions on dictionary states. */
module DictOps {
  import opened Bytes
  import opened HashArithmetic
  import opened DictModel

  // ----- migration -----

  /** Links an entry at the head of its bucket. */
  function Push(t: Buckets, e: Entry): (r: Buckets)
    requires t != []
    ensures |r| == |t|
  {
    var i := Slot(e.key, |t|);
    t[i := [e] + t[i]]
  }

  /** Pushes the entries of a chain, front first. */
  function MoveChain(c: Chain, t: Buckets): (r: Buckets)
    requires t != []
    ensures |r| == |t|
  {
    if c == [] then t else MoveChain(c[1..], Push(t, c[0]))
  }

  lemma PushFacts(t: Buckets, e: Entry)
    requires t != [] && Placed(t)
    ensures Placed(Push(t, e))
    ensures multiset(Flat(Push(t, e))) == multiset(Flat(t)) + multiset{e}
  {
    hide Flat;
    var i := Slot(e.key, |t|);
    FlatUpdate(t, i, [e] + t[i]);
    assert multiset([e] + t[i]) == multiset{e} + multiset(t[i]);
  }

  lemma {:induction false} MoveChainFacts(c: Chain, t: Buckets)
    requires t != [] && Placed(t)
    ensures Placed(MoveChain(c, t))
    ensures multiset(Flat(MoveChain(c, t))) == multiset(Flat(t)) + multiset(c)
  {
    hide Placed, Flat, Push;
    if c != [] {
      PushFacts(t, c[0]);
      MoveChainFacts(c[1..], Push(t, c[0]));
      assert c == [c[0]] + c[1..];
      assert multiset(c) == multiset{c[0]} + multiset(c[1..]);
    }
  }

  /** The scan for the next bucket to migrate. */
  function FirstNonEmpty(t: Buckets, i: nat): (r: nat)
    requires i <= |t|
    ensures i <= r <= |t|
    ensures forall j | i <= j < r :: t[j] == []
    ensures r < |t| ==> t[r] != []
    decreases |t| - i
  {
    if i < |t| && t[i] == [] then FirstNonEmpty(t, i + 1) else i
  }

  /** While used counts entries in the old table, the scan stops inside it. */
  lemma ScanStops(s: State)
    requires Shape(s) && s.Rehashing() && Used(s.t0) > 0
    ensures FirstNonEmpty(s.t0, s.rehashidx) < |s.t0|
  {
    FlatEmpty(s.t0);
  }

  ghost function MoveBucket(s: State, i: nat): State
    requires i < |s.t0| && s.t1 != []
  {
    State(s.t0[i := []], MoveChain(s.t0[i], s.t1), i + 1, s.iterators)
  }

  /** One step of incremental rehashing. */
  ghost function RehashOne(s: State): State
    requires Shape(s) && s.Rehashing()
  {
    if Used(s.t0) == 0 then
      State(s.t1, [], -1, s.iterators)
    else
      ScanStops(s);
      MoveBucket(s, FirstNonEmpty(s.t0, s.rehashidx))
  }

  lemma MoveBucketFacts(s: State, i: nat)
    requires i < |s.t0| && s.t1 != [] && Placed(s.t0) && Placed(s.t1)
    ensures Placed(MoveBucket(s, i).t0) && Placed(MoveBucket(s, i).t1)
    ensures Bag(MoveBucket(s, i)) == Bag(s)
  {
    FlatUpdate(s.t0, i, []);
    MoveChainFacts(s.t0[i], s.t1);
  }

  lemma SwapFacts(s: State)
    requires Used(s.t0) == 0
    ensures multiset(Flat(s.t1)) + multiset(Flat([])) == Bag(s)
  {
    assert Flat(s.t0) == [] == Flat([]);
  }

  lemma RehashOneKeeps(s: State)
    requires WF(s) && s.Rehashing()
    ensures WF(RehashOne(s)) && Bag(RehashOne(s)) == Bag(s)
  {
    if Used(s.t0) > 0 {
      ScanStops(s);
      MoveBucketFacts(s, FirstNonEmpty(s.t0, s.rehashidx));
    } else {
      SwapFacts(s);
    }
  }

  lemma RehashOneProgress(s: State)
    requires WF(s) && s.Rehashing()
    ensures Used(s.t0) == 0 ==> NonEmpty(s.t0) == 0 && !RehashOne(s).Rehashing()
    ensures Used(s.t0) > 0 ==> RehashOne(s).Rehashing() && NonEmpty(RehashOne(s).t0) == NonEmpty(s.t0) - 1
  {
    FlatEmpty(s.t0);
    if Used(s.t0) > 0 {
      ScanStops(s);
      NonEmptyUpdate(s.t0, FirstNonEmpty(s.t0, s.rehashidx), []);
    }
  }

  lemma WFShape(s: State)
    requires WF(s)
    ensures Shape(s)
  {
  }

  /** n steps of incremental rehashing. */
  ghost function Rehash(s: State, n: nat): (r: State)
    requires WF(s)
    ensures WF(r) && Bag(r) == Bag(s) && r.iterators == s.iterators
    decreases n
  {
    if n == 0 || !s.Rehashing() then s
    else
      RehashOneKeeps(s);
      Rehash(RehashOne(s), n - 1)
  }

  /** The steps a count n asks for; counting down from a negative one never ends
      before the tables are swapped. */
  ghost function StepsFor(n: int, s: State): nat {
    if n >= 0 then n else NonEmpty(s.t0) + 1
  }

  /** The step hidden in every lookup and update: none while a safe iterator runs. */
  ghost function StepIfFree(s: State): (r: State)
    requires WF(s)
    ensures WF(r) && Bag(r) == Bag(s) && r.iterators == s.iterators
    ensures s.t0 != [] ==> r.t0 != []
    ensures s.iterators != 0 ==> r == s
  {
    if s.iterators == 0 then Rehash(s, 1) else s
  }

  // ----- growth -----

  ghost function EmptyTable(n: nat): (t: Buckets)
    ensures |t| == n && forall i | 0 <= i < n :: t[i] == []
  {
    seq(n, _ => [])
  }

  /** dict_expand refuses while rehashing or when asked for less than it holds. */
  ghost predicate CanExpand(s: State, size: nat) {
    !s.Rehashing() && Used(s.t0) <= size
  }

  /** The new table stays within int indices. */
  ghost predicate ExpandFits(s: State, size: nat) {
    NextPowerOf(size) <= MAX_BUCKETS && |s.t0| < MAX_BUCKETS
  }

  ghost function Expand(s: State, size: nat): (r: State)
    requires WF(s) && CanExpand(s, size) && ExpandFits(s, size)
    ensures WF(r) && Bag(r) == Bag(s) && r.iterators == s.iterators
    ensures r.t0 != []
  {
    var realsize := NextPowerOf(size);
    NextPowerIsLeast(size);
    FlatEmpty(EmptyTable(realsize));
    if s.t0 == [] then State(EmptyTable(realsize), [], -1, s.iterators)
    else State(s.t0, EmptyTable(realsize), 0, s.iterators)
  }

  /** The least power of two, and at least 4, that covers size. */
  ghost predicate LeastPower(n: nat, size: nat) {
    && IsPow2(n) && n >= 4 && n >= size
    && forall p: nat :: IsPow2(p) && p >= 4 && p >= size ==> n <= p
  }

  /** dict_expand makes a first table, or starts to migrate into a second one. */
  lemma ExpandDoes(s: State, size: nat)
    requires WF(s) && s.rehashidx == -1 && |Flat(s.t0)| <= size && ExpandFits(s, size)
    ensures CanExpand(s, size)
    ensures var r := Expand(s, size);
            && (s.t0 == [] ==> LeastPower(|r.t0|, size) && Flat(r.t0) == [] && r.t1 == [] && r.rehashidx == -1)
            && (s.t0 != [] ==> r.t0 == s.t0 && LeastPower(|r.t1|, size) && Flat(r.t1) == [] && r.rehashidx == 0)
  {
    NextPowerIsLeast(size);
    FlatEmpty(EmptyTable(NextPowerOf(size)));
  }

  /** Growth fits as long as at most 2^30 entries are stored. */
  ghost predicate Room(s: State) {
    |Bag(s)| <= MAX_BUCKETS / 2
  }

  ghost predicate NeedsGrowth(s: State, canResize: bool) {
    && !s.Rehashing()
    && (s.t0 == [] || (Used(s.t0) >= |s.t0|
                       && (canResize || Used(s.t0) >= (FORCE_RESIZE_RATIO + 1) * |s.t0|)))
  }

  ghost function GrowthSize(s: State): nat {
    if s.t0 == [] then INITIAL_SIZE
    else (if |s.t0| > Used(s.t0) then |s.t0| else Used(s.t0)) * 2
  }

  lemma GrowthFits(s: State, canResize: bool)
    requires WF(s) && Room(s) && NeedsGrowth(s, canResize)
    ensures CanExpand(s, GrowthSize(s)) && ExpandFits(s, GrowthSize(s))
  {
    Pow2Max();
    DoubleToIsLeast(INITIAL_SIZE, GrowthSize(s), MAX_BUCKETS);
  }

  lemma Pow2Max()
    ensures IsPow2(INITIAL_SIZE) && IsPow2(MAX_BUCKETS)
  {
    assert IsPow2(4 / 2 / 2);
    assert IsPow2(0x20);
    assert IsPow2(0x20_00);
    assert IsPow2(0x20_0000);
    assert IsPow2(0x20_00_0000);
  }

  ghost function ExpandIfNeeded(s: State, canResize: bool): (r: State)
    requires WF(s) && Room(s)
    ensures WF(r) && Bag(r) == Bag(s) && r.iterators == s.iterators
    ensures r.t0 != []
  {
    if NeedsGrowth(s, canResize) then
      GrowthFits(s, canResize);
      Expand(s, GrowthSize(s))
    else s
  }

  /** When an insertion lets the tables grow, and how far: a dictionary without a table
      gets one of 4 buckets. A full one, unless it is rehashing, starts to migrate to the
      least power of two of buckets for twice its entries, but if resizing is
      discouraged only from six entries a bucket on. */
  lemma GrowthDoes(s: State, canResize: bool)
    requires WF(s) && Room(s)
    ensures var r, n, used := ExpandIfNeeded(s, canResize), |s.t0|, |Flat(s.t0)|;
            if s.rehashidx != -1 then r == s
            else if n == 0 then |r.t0| == 4 && r.t1 == [] && r.rehashidx == -1
            else if used >= n && (canResize || used >= 6 * n) then
              r.t0 == s.t0 && r.rehashidx == 0 && LeastPower(|r.t1|, 2 * used)
            else r == s
  {
    if NeedsGrowth(s, canResize) {
      GrowthFits(s, canResize);
      ExpandDoes(s, GrowthSize(s));
      Pow2Max();
    }
  }

  /** The hidden step: none while a safe iterator runs, otherwise just one bucket. */
  lemma HiddenStep(s: State)
    requires WF(s)
    ensures var r := StepIfFree(s);
            if s.iterators != 0 || s.rehashidx == -1 then r == s
            else if Flat(s.t0) == [] then r == State(s.t1, [], -1, s.iterators)
            else r.rehashidx > s.rehashidx && NonEmpty(r.t0) == NonEmpty(s.t0) - 1
  {
    if s.iterators == 0 && s.rehashidx != -1 {
      assert Rehash(s, 1) == RehashOne(s) by {
        RehashOneKeeps(s);
        assert Rehash(RehashOne(s), 0) == RehashOne(s);
      }
      RehashOneProgress(s);
      FlatEmpty(s.t0);
    }
  }

  // ----- add, find, delete -----

  ghost function Insert(s: State, e: Entry): State
    requires s.t0 != [] && (s.Rehashing() ==> s.t1 != [])
  {
    if s.Rehashing() then s.(t1 := Push(s.t1, e)) else s.(t0 := Push(s.t0, e))
  }

  lemma UniqueInsert(b: multiset<Entry>, e: Entry)
    requires Unique(b) && forall x | x in b :: x.key != e.key
    ensures Unique(b + multiset{e})
  {
  }

  lemma UniqueRemove(b: multiset<Entry>, e: Entry)
    requires Unique(b)
    ensures Unique(b - multiset{e})
  {
    assert forall x | x in b - multiset{e} :: x in b;
  }

  lemma InsertBag(s: State, e: Entry)
    requires WF(s) && s.t0 != []
    ensures Shape(Insert(s, e)) && Placed(Insert(s, e).t0) && Placed(Insert(s, e).t1)
    ensures Bag(Insert(s, e)) == Bag(s) + multiset{e}
  {
    if s.Rehashing() {
      PushFacts(s.t1, e);
    } else {
      PushFacts(s.t0, e);
    }
  }

  /** A new entry is linked at the head of the bucket of its hash, while rehashing in
      the new table. */
  lemma InsertsAtHead(s: State, e: Entry)
    requires WF(s) && s.t0 != []
    ensures var r, h := Insert(s, e), Hash(e.key);
            if s.rehashidx != -1 then r == s.(t1 := s.t1[h % |s.t1| := [e] + s.t1[h % |s.t1|]])
            else r == s.(t0 := s.t0[h % |s.t0| := [e] + s.t0[h % |s.t0|]])
  {
    SlotIsRemainder(e.key, |if s.rehashidx != -1 then s.t1 else s.t0|);
  }

  lemma InsertKeeps(s: State, e: Entry)
    requires WF(s) && s.t0 != [] && Lookup(s, e.key).None?
    ensures WF(Insert(s, e)) && Bag(Insert(s, e)) == Bag(s) + multiset{e}
  {
    LookupIsMembership(s, e.key);
    InsertBag(s, e);
    UniqueInsert(Bag(s), e);
  }

  /** The state in which dict_add looks for the key: one step, then growth. */
  ghost function Prepared(s: State, canResize: bool): (r: State)
    requires WF(s) && Room(s)
    ensures WF(r) && Bag(r) == Bag(s) && r.iterators == s.iterators && r.t0 != []
  {
    ExpandIfNeeded(StepIfFree(s), canResize)
  }

  ghost predicate KeyIn(b: multiset<Entry>, key: Key) {
    exists x :: x in b && x.key == key
  }

  ghost predicate HasKey(s: State, key: Key) {
    KeyIn(Bag(s), key)
  }

  ghost function Add(s: State, e: Entry, canResize: bool): (r: State)
    requires WF(s) && Room(s)
    ensures WF(r) && r.iterators == s.iterators
    ensures Bag(r) == if HasKey(s, e.key) then Bag(s) else Bag(s) + multiset{e}
  {
    var p := Prepared(s, canResize);
    LookupIsMembership(p, e.key);
    if Lookup(p, e.key).Some? then p
    else
      InsertKeeps(p, e);
      Insert(p, e)
  }

  ghost function Find(s: State, key: Key): (r: State)
    requires WF(s)
    ensures WF(r) && Bag(r) == Bag(s) && r.iterators == s.iterators
  {
    if s.t0 == [] then s else StepIfFree(s)
  }

  /** The chain without the first entry of the given key. */
  function Unlink(c: Chain, key: Key): (r: Chain)
    ensures FindIn(c, key).None? ==> r == c
    ensures FindIn(c, key).Some? ==> multiset(r) == multiset(c) - multiset{FindIn(c, key).value}
  {
    if c == [] then []
    else
      assert c == [c[0]] + c[1..];
      if c[0].key == key then c[1..] else [c[0]] + Unlink(c[1..], key)
  }

  function UnlinkInTable(t: Buckets, key: Key): (r: Buckets)
    requires t != []
    ensures |r| == |t|
  {
    t[Slot(key, |t|) := Unlink(t[Slot(key, |t|)], key)]
  }

  lemma {:induction false} UnlinkSubset(c: Chain, key: Key)
    ensures forall y | y in Unlink(c, key) :: y in c
  {
    if c != [] && c[0].key != key {
      UnlinkSubset(c[1..], key);
    }
  }

  lemma UnlinkPlaced(t: Buckets, key: Key)
    requires t != [] && Placed(t)
    ensures Placed(UnlinkInTable(t, key))
  {
    UnlinkSubset(t[Slot(key, |t|)], key);
  }

  lemma UnlinkBag(t: Buckets, key: Key)
    requires t != [] && FindInTable(t, key).Some?
    ensures multiset(Flat(UnlinkInTable(t, key))) == multiset(Flat(t)) - multiset{FindInTable(t, key).value}
    ensures FindInTable(t, key).value in Flat(t)
  {
    hide Flat, Unlink, FindIn;
    var i := Slot(key, |t|);
    var x := FindIn(t[i], key).value;
    var c := Unlink(t[i], key);
    FlatUpdate(t, i, c);
    BagSwap(multiset(Flat(t)), multiset(t[i]), multiset(c), x);
    assert x in multiset(t[i]);
    assert x in multiset(Flat(t));
  }

  lemma BagSwap(b: multiset<Entry>, c: multiset<Entry>, d: multiset<Entry>, x: Entry)
    requires c <= b && x in c && d == c - multiset{x}
    ensures b - c + d == b - multiset{x}
  {
  }

  lemma UnlinkFacts(t: Buckets, key: Key)
    requires t != [] && Placed(t) && FindInTable(t, key).Some?
    ensures Placed(UnlinkInTable(t, key))
    ensures multiset(Flat(UnlinkInTable(t, key))) == multiset(Flat(t)) - multiset{FindInTable(t, key).value}
    ensures FindInTable(t, key).value in Flat(t)
  {
    hide Placed, UnlinkInTable, FindInTable;
    UnlinkPlaced(t, key);
    UnlinkBag(t, key);
  }

  /** dict_generic_delete: searches the old table, then the new one. */
  ghost function Remove(s: State, key: Key): State
    requires s.t0 != [] && (s.Rehashing() ==> s.t1 != [])
  {
    if FindInTable(s.t0, key).Some? then s.(t0 := UnlinkInTable(s.t0, key))
    else if s.Rehashing() && FindInTable(s.t1, key).Some? then s.(t1 := UnlinkInTable(s.t1, key))
    else s
  }

  lemma RemoveOld(s: State, key: Key)
    requires WF(s) && s.t0 != [] && FindInTable(s.t0, key).Some?
    ensures Shape(Remove(s, key)) && Placed(Remove(s, key).t0) && Placed(Remove(s, key).t1)
    ensures Bag(Remove(s, key)) == Bag(s) - multiset{Lookup(s, key).value}
  {
    hide Flat, Used, Placed, Unique;
    UnlinkFacts(s.t0, key);
  }

  lemma RemoveNew(s: State, key: Key)
    requires WF(s) && s.Rehashing() && FindInTable(s.t0, key).None? && FindInTable(s.t1, key).Some?
    ensures Shape(Remove(s, key)) && Placed(Remove(s, key).t0) && Placed(Remove(s, key).t1)
    ensures Bag(Remove(s, key)) == Bag(s) - multiset{Lookup(s, key).value}
  {
    UnlinkFacts(s.t1, key);
  }

  lemma RemoveKeeps(s: State, key: Key)
    requires WF(s) && s.t0 != []
    ensures WF(Remove(s, key))
    ensures Lookup(s, key).None? ==> Remove(s, key) == s
    ensures Lookup(s, key).Some? ==> Bag(Remove(s, key)) == Bag(s) - multiset{Lookup(s, key).value}
  {
    if Lookup(s, key).Some? {
      if FindInTable(s.t0, key).Some? {
        RemoveOld(s, key);
      } else {
        RemoveNew(s, key);
      }
      UniqueRemove(Bag(s), Lookup(s, key).value);
    }
  }

  lemma DeleteKeeps(s: State, key: Key)
    requires WF(s) && s.t0 != []
    ensures var p := StepIfFree(s);
            && p.t0 != [] && (p.Rehashing() ==> p.t1 != [])
            && WF(Remove(p, key)) && Remove(p, key).iterators == s.iterators
            && (Lookup(s, key).None? ==> Bag(Remove(p, key)) == Bag(s))
            && (Lookup(s, key).Some? ==> Bag(Remove(p, key)) == Bag(s) - multiset{Lookup(s, key).value})
  {
    hide WF, Lookup, Bag, StepIfFree;
    var p := StepIfFree(s);
    StepKeepsTables(s);
    SameLookup(s, p, key);
    RemoveKeeps(p, key);
  }

  lemma StepKeepsTables(s: State)
    requires WF(s) && s.t0 != []
    ensures var p := StepIfFree(s);
            p.t0 != [] && (p.Rehashing() ==> p.t1 != [])
  {
  }

  lemma SameLookup(s: State, r: State, key: Key)
    requires WF(s) && WF(r) && Bag(s) == Bag(r)
    ensures Lookup(s, key) == Lookup(r, key)
  {
    hide Lookup, Bag;
    LookupIsMembership(s, key);
    LookupIsMembership(r, key);
    UniqueKeys(Bag(s));
  }

  ghost function Delete(s: State, key: Key): (r: State)
    requires WF(s)
    ensures WF(r) && r.iterators == s.iterators
    ensures Lookup(s, key).None? ==> Bag(r) == Bag(s)
    ensures Lookup(s, key).Some? ==> Bag(r) == Bag(s) - multiset{Lookup(s, key).value}
  {
    LookupIsMembership(s, key);
    if s.t0 == [] then s
    else
      DeleteKeeps(s, key);
      Remove(StepIfFree(s), key)
  }

  /** Lookups, insertions and deletions alike make the hidden step first, once, and only
      while a rehash is under way: the whole of the migration is spread over them. */
  lemma EachMigrates(s: State, key: Key, canResize: bool)
    requires WF(s)
    ensures var r := Find(s, key);
            && (s.iterators != 0 || s.rehashidx == -1 ==> r == s)
            && (s.iterators == 0 && s.rehashidx != -1 && Flat(s.t0) == [] ==> r == State(s.t1, [], -1, 0))
            && (s.iterators == 0 && s.rehashidx != -1 && Flat(s.t0) != [] ==>
                  r.rehashidx > s.rehashidx && NonEmpty(r.t0) == NonEmpty(s.t0) - 1)
            && (Room(s) ==> Prepared(s, canResize) == ExpandIfNeeded(r, canResize))
            && Delete(s, key) == if s.t0 == [] then r else Remove(r, key)
  {
    HiddenStep(s);
    hide StepIfFree, Remove, ExpandIfNeeded, NonEmpty;
  }
}
