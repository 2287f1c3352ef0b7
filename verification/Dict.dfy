/** The dictionary of dict.c: two bucket arrays in place, chained entries and
    incremental migration. Every method computes the function of module DictOps
    that bears its name. */
module Dict {
  import opened Wrappers
  import opened Bytes
  import opened HashArithmetic
  import opened DictModel
  import opened DictOps
  import opened DictIteration

  const DICT_OK := 0
  const DICT_ERR := 1

  /** struct dictht; copied by value, as in C. */
  datatype DictHt = DictHt(table: array?<Entry?>, size: nat, sizemask: nat, used: nat)

  const RESET_HT := DictHt(null, 0, 0, 0)

  /** The entry at a position of a chain, null behind its end. */
  function At(c: Chain, j: nat): Entry? {
    if j < |c| then c[j] else null
  }

  /** The chain is what the next fields spell out from its head. */
  ghost predicate ChainLinked(head: Entry?, c: Chain)
    reads c`next
  {
    if c == [] then head == null else head == c[0] && ChainLinked(c[0].next, c[1..])
  }

  lemma {:induction false} ToPositions(head: Entry?, c: Chain)
    requires ChainLinked(head, c)
    ensures head == At(c, 0)
    ensures forall j | 0 <= j < |c| :: c[j].next == At(c, j + 1)
  {
    if c != [] {
      ToPositions(c[0].next, c[1..]);
      forall j | 0 <= j < |c|
        ensures c[j].next == At(c, j + 1)
      {
        if j > 0 {
          assert c[1..][j - 1].next == At(c[1..], j);
        }
      }
    }
  }

  lemma {:induction false} FromPositions(head: Entry?, c: Chain)
    requires head == At(c, 0)
    requires forall j | 0 <= j < |c| :: c[j].next == At(c, j + 1)
    ensures ChainLinked(head, c)
  {
    if c != [] {
      assert c[0].next == At(c, 1) == At(c[1..], 0);
      forall j | 0 <= j < |c[1..]|
        ensures c[1..][j].next == At(c[1..], j + 1)
      {
        assert c[j + 1].next == At(c, j + 2);
      }
      FromPositions(c[0].next, c[1..]);
    }
  }

  ghost function EntriesIn(t: Buckets): (r: set<Entry>)
    ensures forall i, x | 0 <= i < |t| && x in t[i] :: x in r
  {
    BucketsInFlat(t);
    set x | x in Flat(t)
  }

  lemma BucketsInFlat(t: Buckets)
    ensures forall i, x | 0 <= i < |t| && x in t[i] :: x in Flat(t)
  {
    forall i, x | 0 <= i < |t| && x in t[i]
      ensures x in Flat(t)
    {
      InFlat(t, x);
    }
  }

  ghost predicate Linked(a: array<Entry?>, t: Buckets)
    reads a, EntriesIn(t)`next
  {
    && a.Length == |t|
    && forall i | 0 <= i < |t| :: ChainLinked(a[i], t[i])
  }

  function ToOption(e: Entry?): Option<Entry> {
    if e == null then None else Some(e)
  }

  /** Position j of the chain is the first with this key; prev is before it. */
  ghost predicate FoundAt(c: Chain, key: Key, j: nat, he: Entry, prev: Entry?) {
    && j < |c| && c[j] == he && he.key == key
    && (forall i | 0 <= i < j :: c[i].key != key)
    && prev == if j == 0 then null else c[j - 1]
  }

  /** Walks a chain for a key; prev is the entry before the one found. */
  method SearchChain(head: Entry?, key: Key, ghost c: Chain) returns (he: Entry?, prev: Entry?, ghost j: nat)
    requires ChainLinked(head, c)
    ensures ToOption(he) == FindIn(c, key)
    ensures he != null ==> FoundAt(c, key, j, he, prev)
  {
    he, prev, j := head, null, 0;
    while he != null
      invariant j <= |c| && ChainLinked(he, c[j..])
      invariant prev == if j == 0 then null else c[j - 1]
      invariant FindIn(c, key) == FindIn(c[j..], key)
      invariant forall i | 0 <= i < j :: c[i].key != key
      decreases |c| - j
    {
      if he.key == key {
        return;
      }
      prev, he, j := he, he.next, j + 1;
    }
  }

  lemma {:induction false} UnlinkAt(c: Chain, key: Key, j: nat)
    requires j < |c| && c[j].key == key && forall i | 0 <= i < j :: c[i].key != key
    ensures Unlink(c, key) == c[..j] + c[j + 1..]
  {
    hide FindIn;
    if j > 0 {
      assert c[0].key != key;
      UnlinkAt(c[1..], key, j - 1);
      Glue(c, j);
    }
  }

  lemma Glue(c: Chain, j: nat)
    requires 0 < j < |c|
    ensures [c[0]] + (c[1..][..j - 1] + c[1..][j..]) == c[..j] + c[j + 1..]
  {
  }

  /** Links a new entry at the head of its bucket. */
  method PushFront(a: array<Entry?>, ghost t: Buckets, e: Entry, index: nat)
    requires Linked(a, t) && t != [] && index == Slot(e.key, |t|)
    requires forall i | 0 <= i < |t| :: e !in t[i]
    modifies a, e`next
    ensures Linked(a, Push(t, e))
  {
    assert ChainLinked(a[index], t[index]);
    e.next := a[index];
    a[index] := e;
    assert ([e] + t[index])[1..] == t[index];
    assert ChainLinked(e.next, t[index]);
    assert ChainLinked(a[index], [e] + t[index]);
    forall i | 0 <= i < |t| && i != index
      ensures ChainLinked(a[i], t[i])
    {
      assert old(ChainLinked(a[i], t[i]));
    }
  }

  /** Bypasses the entry he, found at position j of bucket index. */
  method Bypass(a: array<Entry?>, ghost t: Buckets, index: nat, he: Entry, prev: Entry?, ghost j: nat)
    requires Linked(a, t) && index < |t| && NoDup(t[index])
    requires forall i, x | 0 <= i < |t| && i != index && x in t[i] :: x !in t[index]
    requires j < |t[index]| && t[index][j] == he && prev == if j == 0 then null else t[index][j - 1]
    modifies a, (if prev == null then {} else {prev})`next
    ensures Linked(a, t[index := t[index][..j] + t[index][j + 1..]])
  {
    ghost var c, r := t[index], t[index][..j] + t[index][j + 1..];
    assert ChainLinked(a[index], c);
    ToPositions(a[index], c);
    if prev != null {
      prev.next := he.next;
    } else {
      a[index] := he.next;
    }
    forall k | 0 <= k < |r|
      ensures r[k].next == At(r, k + 1)
    {
      var k' := if k < j then k else k + 1;
      assert r[k] == c[k'] && old(c[k'].next) == At(c, k' + 1);
      if k' != j - 1 {
        assert c[k'] != prev;
      }
    }
    FromPositions(a[index], r);
    forall i | 0 <= i < |t| && i != index
      ensures ChainLinked(a[i], t[i])
    {
      assert old(ChainLinked(a[i], t[i]));
      assert prev != null ==> prev in c;
    }
  }

  ghost predicate Apart(t: Buckets, c: Chain) {
    forall i, x | 0 <= i < |t| && x in t[i] :: x !in c
  }

  lemma PushApart(t: Buckets, c: Chain, k: nat)
    requires t != [] && k < |c| && NoDup(c) && Apart(t, c[k..])
    ensures Apart(Push(t, c[k]), c[k + 1..])
    ensures forall i | 0 <= i < |t| :: c[k] !in t[i]
  {
    assert c[k] in c[k..];
    var tail := c[k + 1..];
    assert forall x :: x in tail ==> x in c[k..];
    assert forall j | 0 <= j < |tail| :: tail[j] == c[k + 1 + j];
    assert c[k] !in tail;
  }

  /** Moves one entry of an old bucket to the head of its new bucket. */
  method MoveOne(de: Entry, ghost c: Chain, ghost k: nat, a: array<Entry?>, sizemask: nat, ghost t: Buckets)
    returns (nextde: Entry?)
    requires t != [] && IsPow2(|t|) && sizemask == |t| - 1 && Linked(a, t)
    requires k < |c| && ChainLinked(de, c[k..]) && NoDup(c) && Apart(t, c[k..])
    modifies a, de`next
    ensures ChainLinked(nextde, c[k + 1..])
    ensures Linked(a, Push(t, de)) && Apart(Push(t, de), c[k + 1..])
  {
    nextde := de.next;
    assert c[k..][1..] == c[k + 1..];
    var hash := GenHashFunction(de.key);
    var h := BitAnd(hash, sizemask);
    PushApart(t, c, k);
    PushFront(a, t, de, h);
  }

  /** Moves all entries of an old bucket. */
  method MoveEntries(head: Entry?, ghost c: Chain, a: array<Entry?>, sizemask: nat, ghost t: Buckets,
                     used0: nat, used1: nat)
    returns (u0: nat, u1: nat, ghost r: Buckets)
    requires t != [] && IsPow2(|t|) && sizemask == |t| - 1 && Linked(a, t)
    requires ChainLinked(head, c) && NoDup(c) && Apart(t, c) && used0 >= |c|
    modifies a, c`next
    ensures r == MoveChain(c, t) && Linked(a, r)
    ensures u0 == used0 - |c| && u1 == used1 + |c|
  {
    u0, u1, r := used0, used1, t;
    var de := head;
    ghost var k := 0;
    assert c[0..] == c;
    while de != null
      invariant k <= |c| && ChainLinked(de, c[k..])
      invariant |r| == |t| && MoveChain(c[k..], r) == MoveChain(c, t)
      invariant u0 == used0 - k && u1 == used1 + k
      invariant Linked(a, r)
      invariant Apart(r, c[k..])
      decreases |c| - k
    {
      var nextde := MoveOne(de, c, k, a, sizemask, r);
      assert c[k..][1..] == c[k + 1..];
      r := Push(r, de);
      u0, u1 := u0 - 1, u1 + 1;
      de, k := nextde, k + 1;
    }
  }

  lemma ChainApart(s: State, i: nat)
    requires WF(s) && i < |s.t0|
    ensures Apart(s.t1, s.t0[i])
  {
    BucketsInFlat(s.t0);
    BucketsInFlat(s.t1);
    forall j, x | 0 <= j < |s.t1| && x in s.t1[j]
      ensures x !in s.t0[i]
    {
      TablesDisjoint(s, x);
    }
  }

  lemma OwnBucket(s: State, i: nat)
    requires WF(s) && i < |s.t0|
    ensures forall j, x | 0 <= j < |s.t0| && j != i && x in s.t0[j] :: x !in s.t0[i]
    ensures s.Rehashing() ==> s.t1 != [] && IsPow2(|s.t1|)
  {
    forall j, x | 0 <= j < |s.t0| && j != i && x in s.t0[j]
      ensures x !in s.t0[i]
    {
      assert Slot(x.key, |s.t0|) == j;
    }
  }

  lemma ChainFacts(s: State, i: nat)
    requires WF(s) && i < |s.t0|
    ensures NoDup(s.t0[i]) && Apart(s.t1, s.t0[i]) && |s.t0[i]| <= Used(s.t0)
    ensures forall j, x | 0 <= j < |s.t0| && j != i && x in s.t0[j] :: x !in s.t0[i]
    ensures s.Rehashing() ==> s.t1 != [] && IsPow2(|s.t1|)
  {
    OwnBucket(s, i);
    hide WF, Flat;
    ChainsNoDup(s, 0, i);
    ChainApart(s, i);
    FlatSplit(s.t0, i);
  }

  /** Empties one bucket of the old array into the new one. */
  method EmptyBucket(a0: array<Entry?>, a1: array<Entry?>, i: nat, sizemask: nat, used0: nat, used1: nat,
                     ghost s: State)
    returns (u0: nat, u1: nat, ghost r: Buckets)
    requires WF(s) && s.Rehashing() && i < |s.t0|
    requires Linked(a0, s.t0) && Linked(a1, s.t1) && a0 != a1
    requires sizemask == |s.t1| - 1 && used0 == Used(s.t0) && used1 == Used(s.t1)
    modifies a0, a1, s.t0[i]`next
    ensures r == MoveChain(s.t0[i], s.t1)
    ensures Linked(a0, s.t0[i := []]) && Linked(a1, r)
    ensures u0 == used0 - |s.t0[i]| && u1 == used1 + |s.t0[i]|
  {
    hide WF, Flat, Slot;
    ghost var c := s.t0[i];
    ChainFacts(s, i);
    assert ChainLinked(a0[i], c);
    u0, u1, r := MoveEntries(a0[i], c, a1, sizemask, s.t1, used0, used1);
    a0[i] := null;
    forall j | 0 <= j < |s.t0| && j != i
      ensures ChainLinked(a0[j], s.t0[j])
    {
      assert old(ChainLinked(a0[j], s.t0[j]));
      assert forall k | 0 <= k < |s.t0[j]| :: s.t0[j][k] in s.t0[j] && s.t0[j][k] !in c;
    }
  }

  lemma InEntries(s: State, es: set<Entry>)
    requires forall x | x in Bag(s) :: x in es
    ensures EntriesIn(s.t0) <= es && EntriesIn(s.t1) <= es
    ensures forall i, x | 0 <= i < |s.t0| && x in s.t0[i] :: x in es
    ensures forall i, x | 0 <= i < |s.t1| && x in s.t1[i] :: x in es
  {
    BucketsInFlat(s.t0);
    BucketsInFlat(s.t1);
  }

  lemma MoveBucketUsed(s: State, i: nat)
    requires WF(s) && s.Rehashing() && i < |s.t0|
    ensures Used(s.t0[i := []]) == Used(s.t0) - |s.t0[i]|
    ensures Used(MoveChain(s.t0[i], s.t1)) == Used(s.t1) + |s.t0[i]|
  {
    FlatSplit(s.t0, i);
    FlatSplit(s.t0[i := []], i);
    MoveChainFacts(s.t0[i], s.t1);
    var r := MoveChain(s.t0[i], s.t1);
    assert |multiset(Flat(r))| == |multiset(Flat(s.t1)) + multiset(s.t0[i])|;
  }

  /** A struct dictht holds the buckets t. */
  ghost predicate Stored(ht: DictHt, t: Buckets)
    reads ht.table, EntriesIn(t)`next
  {
    && ht.size == |t| && ht.used == Used(t)
    && ht.sizemask == (if t == [] then 0 else |t| - 1)
    && (ht.table == null <==> t == [])
    && (ht.table != null ==> Linked(ht.table, t))
  }

  lemma StoredAgain(ht: DictHt, t: Buckets)
    requires t != [] && ht.table != null && Linked(ht.table, t)
    requires ht.size == |t| && ht.used == Used(t) && ht.sizemask == |t| - 1
    ensures Stored(ht, t)
  {
  }

  lemma EntriesApart(s: State)
    requires WF(s)
    ensures EntriesIn(s.t0) !! EntriesIn(s.t1)
  {
    forall x | x in EntriesIn(s.t0)
      ensures x !in EntriesIn(s.t1)
    {
      TablesDisjoint(s, x);
    }
  }

  /** Links an entry into a table; the other table o stays as it is. */
  method PushHt(ht: DictHt, ghost t: Buckets, e: Entry, index: nat, ghost o: DictHt, ghost ot: Buckets)
    returns (n: DictHt)
    requires Stored(ht, t) && t != [] && index == Slot(e.key, |t|) && e !in EntriesIn(t)
    requires Stored(o, ot) && e !in EntriesIn(ot) && o.table != ht.table
    modifies ht.table, e`next
    ensures Stored(n, Push(t, e)) && n.table == ht.table
    ensures Stored(o, ot)
  {
    PushUsed(t, e);
    PushFront(ht.table, t, e, index);
    n := ht.(used := ht.used + 1);
  }

  /** Unlinks the entry found at position j of its bucket; the other table o stays as it is. */
  method BypassHt(ht: DictHt, ghost s: State, ghost table: nat, key: Key, index: nat, he: Entry, prev: Entry?,
                  ghost j: nat, ghost o: DictHt)
    returns (n: DictHt)
    requires WF(s) && table <= 1 && TableOf(s, table) != [] && Stored(ht, TableOf(s, table))
    requires index == Slot(key, |TableOf(s, table)|)
    requires FindInTable(TableOf(s, table), key) == Some(he)
    requires FoundAt(TableOf(s, table)[index], key, j, he, prev)
    requires Stored(o, TableOf(s, 1 - table)) && o.table != ht.table
    modifies ht.table, (if prev == null then {} else {prev})`next
    ensures Stored(n, UnlinkInTable(TableOf(s, table), key)) && n.table == ht.table
    ensures Stored(o, TableOf(s, 1 - table))
  {
    hide WF, FindInTable, UnlinkInTable, Slot, ChainLinked, Flat, NoDup;
    ghost var t := TableOf(s, table);
    EntriesApart(s);
    assert prev != null ==> prev in t[index] && prev in EntriesIn(t);
    UnlinkUsed(t, key);
    BypassReady(s, table, index, j, key);
    Bypass(ht.table, t, index, he, prev, j);
    n := ht.(used := ht.used - 1);
  }

  /** calloc'ed buckets. */
  method NewTable(realsize: nat) returns (n: DictHt)
    requires realsize > 0
    ensures n.table != null && fresh(n.table) && Stored(n, EmptyTable(realsize))
  {
    var table := new Entry?[realsize](_ => null);
    FlatEmpty(EmptyTable(realsize));
    n := DictHt(table, realsize, realsize - 1, 0);
  }

  /** Looks a key up in one table; index is its bucket there. */
  method SearchTable(ht: DictHt, key: Key, ghost t: Buckets)
    returns (index: nat, he: Entry?, prev: Entry?, ghost j: nat)
    requires Stored(ht, t) && t != [] && IsPow2(|t|)
    ensures index == Slot(key, |t|)
    ensures ToOption(he) == FindInTable(t, key)
    ensures he != null ==> FoundAt(t[index], key, j, he, prev)
  {
    var hash := GenHashFunction(key);
    index := BitAnd(hash, ht.sizemask);
    assert ChainLinked(ht.table[index], t[index]);
    he, prev, j := SearchChain(ht.table[index], key, t[index]);
  }

  lemma WFPowers(s: State)
    requires WF(s)
    ensures s.t0 != [] ==> IsPow2(|s.t0|)
    ensures s.Rehashing() <==> s.t1 != []
    ensures s.Rehashing() ==> IsPow2(|s.t1|) && s.t0 != []
    ensures |s.t0| <= MAX_BUCKETS && |s.t1| <= MAX_BUCKETS
    ensures Placed(s.t0) && Placed(s.t1)
  {
  }

  /** A deletion from a dictionary with buckets: a rehash step if one is due, then the removal. */
  lemma DeleteIsRemove(s: State, key: Key)
    requires WF(s) && s.t0 != []
    ensures var p := StepIfFree(s);
            && WF(p) && p.t0 != [] && (p.Rehashing() ==> p.t1 != [])
            && Delete(s, key) == Remove(p, key)
            && (HasKey(s, key) <==> Lookup(p, key).Some?)
            && (Lookup(p, key).None? ==> Remove(p, key) == p)
  {
    LookupIsMembership(s, key);
    LookupIsMembership(StepIfFree(s), key);
    RemoveKeeps(StepIfFree(s), key);
  }

  lemma SkippingKeeps(s: State, i: nat)
    requires WF(s) && s.Rehashing() && i < |s.t0| && forall j | 0 <= j < i :: s.t0[j] == []
    ensures WF(s.(rehashidx := i)) && Bag(s.(rehashidx := i)) == Bag(s)
  {
  }

  lemma NoStep(s: State)
    requires WF(s) && !s.Rehashing()
    ensures StepIfFree(s) == s
  {
  }

  lemma EmptyLookup(s: State, key: Key)
    requires WF(s) && s.t0 == []
    ensures Lookup(s, key).None? && !HasKey(s, key) && Find(s, key) == s && Delete(s, key) == s
  {
    LookupIsMembership(s, key);
  }

  lemma PushUsed(t: Buckets, e: Entry)
    requires t != []
    ensures Used(Push(t, e)) == Used(t) + 1
  {
    var i := Slot(e.key, |t|);
    FlatSplit(t, i);
    FlatSplit(Push(t, e), i);
  }

  lemma UnlinkUsed(t: Buckets, key: Key)
    requires t != [] && FindInTable(t, key).Some?
    ensures Used(UnlinkInTable(t, key)) == Used(t) - 1
  {
    UnlinkBag(t, key);
    assert |multiset(Flat(UnlinkInTable(t, key)))| == |multiset(Flat(t))| - 1;
  }

  /** What bypassing needs to know about the bucket, and what it leaves. */
  lemma BypassReady(s: State, table: nat, index: nat, j: nat, key: Key)
    requires WF(s) && table <= 1 && TableOf(s, table) != [] && index == Slot(key, |TableOf(s, table)|)
    requires var c := TableOf(s, table)[index];
             j < |c| && c[j].key == key && forall i | 0 <= i < j :: c[i].key != key
    ensures var t := TableOf(s, table);
            && NoDup(t[index])
            && (forall i, x | 0 <= i < |t| && i != index && x in t[i] :: x !in t[index])
            && UnlinkInTable(t, key) == t[index := t[index][..j] + t[index][j + 1..]]
  {
    var t := TableOf(s, table);
    ChainsNoDup(s, table, index);
    UnlinkAt(t[index], key, j);
    forall i, x: Entry | 0 <= i < |t| && i != index && x in t[i]
      ensures x !in t[index]
    {
      assert Slot(x.key, |t|) == i;
    }
  }

  lemma PreparedHasKey(s: State, key: Key, canResize: bool)
    requires WF(s) && Room(s)
    ensures Lookup(Prepared(s, canResize), key).Some? <==> HasKey(s, key)
  {
    LookupIsMembership(Prepared(s, canResize), key);
  }

  class Dict {
    var ht0: DictHt
    var ht1: DictHt
    var rehashidx: int
    var iterators: int

    ghost var t0: Buckets
    ghost var t1: Buckets
    ghost var arrays: set<array<Entry?>>
    ghost var entries: set<Entry>

    ghost function Model(): State
      reads this
    {
      State(t0, t1, rehashidx, iterators)
    }

    ghost predicate Valid()
      reads this, arrays, entries`next
    {
      && WF(Model())
      && (forall x | x in Bag(Model()) :: x in entries)
      && (ht0.table != null ==> ht0.table in arrays)
      && (ht1.table != null ==> ht1.table in arrays && ht0.table != ht1.table)
      && Stored(ht0, t0) && Stored(ht1, t1)
    }

    lemma ValidParts()
      requires Valid()
      ensures WF(Model()) && forall x | x in Bag(Model()) :: x in entries
      ensures ht0.table != null ==> ht0.table in arrays
      ensures ht1.table != null ==> ht1.table in arrays && ht0.table != ht1.table
      ensures ht0.used == Used(t0) && ht1.used == Used(t1) && ht0.size == |t0| && ht1.size == |t1|
      ensures (ht0.table == null <==> t0 == []) && (ht1.table == null <==> t1 == [])
      ensures t0 != [] ==> ht0.sizemask == |t0| - 1 && Linked(ht0.table, t0)
      ensures t1 != [] ==> ht1.sizemask == |t1| - 1 && Linked(ht1.table, t1)
      ensures IsRehashing() ==> t0 != [] && t1 != []
      ensures Stored(ht0, t0) && Stored(ht1, t1)
    {
    }

    lemma ValidAgain()
      requires WF(Model()) && forall x | x in Bag(Model()) :: x in entries
      requires ht0.table != null ==> ht0.table in arrays
      requires ht1.table != null ==> ht1.table in arrays && ht0.table != ht1.table
      requires Stored(ht0, t0) && Stored(ht1, t1)
      ensures Valid()
    {
    }

    predicate IsRehashing()
      reads this
    {
      rehashidx != -1
    }

    constructor ()
      ensures Valid() && Model() == NEW_DICT
      ensures fresh(arrays) && fresh(entries)
    {
      ht0, ht1 := RESET_HT, RESET_HT;
      rehashidx, iterators := -1, 0;
      t0, t1, arrays, entries := [], [], {}, {};
    }

    /** Skips the empty old buckets. */
    method SkipEmpty()
      requires Valid() && IsRehashing() && ht0.used > 0
      modifies this`rehashidx
      ensures rehashidx == FirstNonEmpty(t0, old(rehashidx)) < |t0|
      ensures Valid()
    {
      hide Valid, WF, Bag, Flat, Used;
      ghost var s := Model();
      ValidParts();
      ModelOk();
      ScanStops(s);
      while ht0.table[rehashidx] == null
        invariant 0 <= rehashidx < |t0|
        invariant FirstNonEmpty(t0, rehashidx) == FirstNonEmpty(t0, old(rehashidx)) < |t0|
        invariant forall i | 0 <= i < rehashidx :: t0[i] == []
        decreases |t0| - rehashidx
      {
        assert ChainLinked(ht0.table[rehashidx], t0[rehashidx]);
        rehashidx := rehashidx + 1;
      }
      assert ChainLinked(ht0.table[rehashidx], t0[rehashidx]);
      SkippingKeeps(s, rehashidx);
      ValidAgain();
    }

    /** Moves the chain of one old bucket. */
    method MoveBucketAt(i: nat)
      requires Valid() && IsRehashing() && i < |t0|
      requires WF(MoveBucket(Model(), i)) && forall x | x in Bag(MoveBucket(Model(), i)) :: x in entries
      modifies this, arrays, entries`next
      ensures Valid() && Model() == old(MoveBucket(Model(), i))
      ensures arrays == old(arrays) && entries == old(entries)
    {
      hide Valid, WF, Linked, Flat, MoveChain, ChainLinked, Bag, Stored, Used;
      ghost var s := Model();
      ValidParts();
      MoveBucketUsed(s, i);
      InEntries(s, entries);
      var u0, u1;
      ghost var r;
      u0, u1, r := EmptyBucket(ht0.table, ht1.table, i, ht1.sizemask, ht0.used, ht1.used, s);
      ht0 := ht0.(used := u0);
      ht1 := ht1.(used := u1);
      rehashidx := i + 1;
      t0, t1 := t0[i := []], r;
      StoredAgain(ht0, t0);
      StoredAgain(ht1, t1);
      ValidAgain();
    }

    /** One step while the old table still holds entries. */
    method MigrateBucket()
      requires Valid() && IsRehashing() && ht0.used > 0
      modifies this, arrays, entries`next
      ensures Valid() && Model() == old(RehashOne(Model())) && IsRehashing()
      ensures arrays == old(arrays) && entries == old(entries)
    {
      hide Valid, WF, Linked, Flat, MoveChain, FirstNonEmpty, ChainLinked, Bag, Stored, Used;
      ghost var s := Model();
      ValidParts();
      RehashOneKeeps(s);
      SkipEmpty();
      assert MoveBucket(Model(), rehashidx) == RehashOne(s);
      MoveBucketAt(rehashidx);
    }

    /** Replaces the old, now empty table by the new one. */
    method SwapTables()
      requires Valid() && IsRehashing() && ht0.used == 0
      modifies this
      ensures Valid() && Model() == old(RehashOne(Model())) && !IsRehashing()
      ensures arrays == old(arrays) && entries == old(entries)
    {
      hide WF, Linked, Bag, ChainLinked;
      RehashOneKeeps(Model());
      ht0, ht1, rehashidx := ht1, RESET_HT, -1;
      t0, t1 := t1, [];
    }

    lemma ModelOk()
      requires Valid()
      ensures WF(Model()) && Shape(Model()) && ht0.used == Used(t0)
    {
    }

    /** dict_rehash: n steps; 1 if there is still something to move, else 0. */
    method DictRehash(n: int) returns (r: int)
      requires Valid()
      modifies this, arrays, entries`next
      ensures Valid() && Model() == old(Rehash(Model(), StepsFor(n, Model())))
      ensures r == if IsRehashing() then 1 else 0
      ensures arrays == old(arrays) && entries == old(entries)
    {
      hide WF, Valid, Flat, RehashOne, Shape, NonEmpty, Used;
      ModelOk();
      if !IsRehashing() {
        return 0;
      }
      var left := n;
      while left != 0
        invariant Valid() && WF(Model()) && IsRehashing() && (n >= 0 ==> left >= 0) && (n < 0 ==> left < 0)
        invariant Rehash(Model(), StepsFor(left, Model())) == old(Rehash(Model(), StepsFor(n, Model())))
        invariant arrays == old(arrays) && entries == old(entries)
        decreases StepsFor(left, Model())
      {
        left := left - 1;
        ModelOk();
        RehashOneProgress(Model());
        if ht0.used == 0 {
          SwapTables();
          return 0;
        }
        MigrateBucket();
        ModelOk();
      }
      return 1;
    }

    method RehashStep()
      requires Valid()
      modifies this, arrays, entries`next
      ensures Valid() && Model() == old(StepIfFree(Model()))
      ensures arrays == old(arrays) && entries == old(entries)
    {
      hide WF, Stored;
      if iterators == 0 {
        var _ := DictRehash(1);
      }
    }

    /** dict_expand: a first table, or a second one to migrate into. */
    method DictExpand(size: nat) returns (r: int)
      requires Valid() && size < TWO_TO_64
      requires CanExpand(Model(), size) ==> ExpandFits(Model(), size)
      modifies this
      ensures Valid() && entries == old(entries) && fresh(arrays - old(arrays))
      ensures r == if old(rehashidx) == -1 && old(ht0.used) <= size then 0 else 1
      ensures old(CanExpand(Model(), size)) <==> r == 0
      ensures Model() == if r == 0 then old(Expand(Model(), size)) else old(Model())
    {
      hide Valid, WF, EmptyTable, Flat, Bag, Stored, Linked, Used;
      ValidParts();
      var realsize := NextPower(size);
      if IsRehashing() || ht0.used > size {
        return DICT_ERR;
      }
      ghost var s := Model();
      NextPowerIsLeast(size);
      WFTables(s);
      var n := NewTable(realsize);
      arrays := arrays + {n.table};
      if ht0.table == null {
        ht0, t0 := n, EmptyTable(realsize);
      } else {
        ht1, t1 := n, EmptyTable(realsize);
        rehashidx := 0;
      }
      assert Model() == Expand(s, size);
      ValidAgain();
      return DICT_OK;
    }

    method ExpandWhenNeeded(canResize: bool) returns (r: int)
      requires Valid() && Room(Model())
      modifies this
      ensures Valid() && entries == old(entries) && fresh(arrays - old(arrays))
      ensures Model() == old(ExpandIfNeeded(Model(), canResize)) && r == 0
    {
      hide WF, Stored, Bag, Flat, Room;
      if IsRehashing() {
        return DICT_OK;
      }
      UsedIsStored();
      if NeedsGrowth(Model(), canResize) {
        GrowthFits(Model(), canResize);
      }
      if ht0.size > 0 {
        QuotientExceeds(ht0.used, ht0.size, FORCE_RESIZE_RATIO);
      }
      if ht0.size == 0 {
        r := DictExpand(INITIAL_SIZE);
      } else if ht0.used >= ht0.size && (canResize || ht0.used / ht0.size > FORCE_RESIZE_RATIO) {
        r := DictExpand((if ht0.size > ht0.used then ht0.size else ht0.used) * 2);
      } else {
        r := DICT_OK;
      }
    }

    lemma ContentsOwned()
      requires Valid()
      ensures forall x | x in Bag(Model()) :: x in entries
    {
    }

    lemma UsedIsStored()
      requires Valid()
      ensures ht0.used == Used(t0) && ht1.used == Used(t1) && ht0.size == |t0| && ht1.size == |t1|
      ensures ht0.table == null <==> t0 == []
      ensures ht1.table == null <==> t1 == []
    {
    }

    method SearchIn(table: nat, key: Key) returns (index: nat, he: Entry?, prev: Entry?, ghost j: nat)
      requires Valid() && table <= 1 && TableOf(Model(), table) != []
      ensures index == Slot(key, |TableOf(Model(), table)|)
      ensures ToOption(he) == FindInTable(TableOf(Model(), table), key)
      ensures he != null ==> FoundAt(TableOf(Model(), table)[index], key, j, he, prev)
    {
      hide WF, Linked, Flat;
      WFPowers(Model());
      if table == 0 {
        index, he, prev, j := SearchTable(ht0, key, t0);
      } else {
        index, he, prev, j := SearchTable(ht1, key, t1);
      }
    }

    /** The search common to find, delete and key index: the old table, then
        while rehashing the new one. */
    method Search(key: Key) returns (table: nat, index: nat, he: Entry?, prev: Entry?, ghost j: nat)
      requires Valid() && t0 != []
      ensures table <= 1 && (table == 1 ==> IsRehashing() && t1 != [] && FindInTable(t0, key).None?)
      ensures ToOption(he) == Lookup(Model(), key)
      ensures index == Slot(key, |TableOf(Model(), table)|)
      ensures he == null && IsRehashing() ==> table == 1
      ensures he != null ==>
                ToOption(he) == FindInTable(TableOf(Model(), table), key)
                && FoundAt(TableOf(Model(), table)[index], key, j, he, prev)
    {
      hide Valid, FindInTable, FoundAt;
      ModelOk();
      table := 0;
      index, he, prev, j := SearchIn(0, key);
      if he == null && IsRehashing() {
        table := 1;
        index, he, prev, j := SearchIn(1, key);
      }
    }

    /** _dict_key_index: the bucket for a new key, or -1 if the key is there. */
    method KeyIndex(key: Key, canResize: bool) returns (index: int)
      requires Valid() && Room(Model())
      modifies this
      ensures Valid() && entries == old(entries) && fresh(arrays - old(arrays))
      ensures Model() == old(ExpandIfNeeded(Model(), canResize))
      ensures index == -1 <==> Lookup(Model(), key).Some?
      ensures index != -1 ==> 0 <= index == Slot(key, if IsRehashing() then |t1| else |t0|) < MAX_BUCKETS
    {
      hide Valid, Lookup, Room;
      var _ := ExpandWhenNeeded(canResize);
      ModelOk();
      WFPowers(Model());
      var table, idx, he, prev;
      ghost var j;
      table, idx, he, prev, j := Search(key);
      index := if he != null then -1 else idx;
    }

    method InsertOld(e: Entry, index: nat)
      requires Valid() && t0 != [] && !IsRehashing() && e !in entries && Lookup(Model(), e.key).None?
      requires index == Slot(e.key, |t0|)
      modifies this, arrays, e`next
      ensures Valid() && Model() == old(Insert(Model(), e))
      ensures arrays == old(arrays) && entries == old(entries) + {e}
    {
      hide WF, Lookup, Bag, Slot, Push, ChainLinked;
      WFPowers(Model());
      InsertKeeps(Model(), e);
      InEntries(Model(), entries);
      ht0 := PushHt(ht0, t0, e, index, ht1, t1);
      t0 := Push(t0, e);
      entries := entries + {e};
    }

    method InsertNew(e: Entry, index: nat)
      requires Valid() && t0 != [] && IsRehashing() && e !in entries && Lookup(Model(), e.key).None?
      requires t1 != [] && index == Slot(e.key, |t1|)
      modifies this, arrays, e`next
      ensures Valid() && Model() == old(Insert(Model(), e))
      ensures arrays == old(arrays) && entries == old(entries) + {e}
    {
      hide WF, Lookup, Bag, Slot, Push, ChainLinked;
      ghost var s := Model();
      WFPowers(Model());
      InsertKeeps(Model(), e);
      InEntries(Model(), entries);
      ht1 := PushHt(ht1, t1, e, index, ht0, t0);
      t1 := Push(t1, e);
      entries := entries + {e};
      assert Stored(ht1, t1);
    }

    /** Links a new entry into the table that takes insertions. */
    method InsertEntry(e: Entry, index: nat)
      requires Valid() && t0 != [] && e !in entries && Lookup(Model(), e.key).None?
      requires index == Slot(e.key, if IsRehashing() then |t1| else |t0|)
      modifies this, arrays, e`next
      ensures Valid() && Model() == old(Insert(Model(), e))
      ensures arrays == old(arrays) && entries == old(entries) + {e}
    {
      hide Valid, Lookup, Insert;
      ModelOk();
      if IsRehashing() {
        InsertNew(e, index);
      } else {
        InsertOld(e, index);
      }
    }

    /** dict_add; e is the entry it links if the key is new. */
    method DictAdd(key: Key, val: object?, vallen: nat, canResize: bool) returns (r: int, ghost e: Entry?)
      requires Valid() && Room(Model())
      modifies this, arrays, entries`next
      ensures Valid() && fresh(arrays - old(arrays))
      ensures r == if HasKey(old(Model()), key) then 1 else 0
      ensures r == 1 ==> entries == old(entries) && Model() == Prepared(old(Model()), canResize)
      ensures r == 0 ==>
                && e != null && fresh(e) && e.key == key && e.val == val && e.vallen == vallen
                && entries == old(entries) + {e}
                && Model() == Add(old(Model()), e, canResize)
    {
      hide Valid, Lookup, Bag, Insert;
      ghost var s := Model();
      ModelOk();
      if IsRehashing() {
        RehashStep();
      }
      ModelOk();
      var index := KeyIndex(key, canResize);
      ModelOk();
      PreparedHasKey(s, key, canResize);
      e := null;
      if index == -1 {
        return DICT_ERR, null;
      }
      var entry := new Entry(key, val, vallen, null);
      InsertEntry(entry, index);
      return DICT_OK, entry;
    }

    /** dict_find: the entry object of the key, or null. */
    method DictFind(key: Key) returns (he: Entry?)
      requires Valid()
      modifies this, arrays, entries`next
      ensures Valid() && arrays == old(arrays) && entries == old(entries)
      ensures Model() == old(Find(Model(), key))
      ensures ToOption(he) == Lookup(Model(), key)
    {
      hide Valid, Lookup, Bag;
      ModelOk();
      UsedIsStored();
      if ht0.size == 0 {
        EmptyLookup(Model(), key);
        return null;
      }
      if IsRehashing() {
        RehashStep();
      }
      ModelOk();
      var table, index, prev;
      ghost var j;
      table, index, he, prev, j := Search(key);
    }

    lemma RemoveReady(table: nat, key: Key, index: nat, he: Entry, prev: Entry?, j: nat)
      requires Valid() && t0 != [] && table <= 1 && TableOf(Model(), table) != []
      requires index == Slot(key, |TableOf(Model(), table)|)
      requires FoundAt(TableOf(Model(), table)[index], key, j, he, prev)
      ensures WF(Remove(Model(), key))
      ensures forall x | x in Bag(Remove(Model(), key)) :: x in entries
      ensures prev != null ==> prev in entries
    {
      hide WF;
      RemoveKeeps(Model(), key);
      InEntries(Model(), entries);
      assert prev != null ==> prev in TableOf(Model(), table)[index];
    }

    method RemoveFoundOld(key: Key, index: nat, he: Entry, prev: Entry?, ghost j: nat)
      requires Valid() && t0 != [] && index == Slot(key, |t0|)
      requires Some(he) == FindInTable(t0, key) && FoundAt(t0[index], key, j, he, prev)
      modifies this, arrays, entries`next
      ensures Valid() && arrays == old(arrays) && entries == old(entries)
      ensures Model() == old(Remove(Model(), key))
    {
      hide WF, Bag, Slot, UnlinkInTable, ChainLinked, FindInTable;
      ghost var s := Model();
      WFTables(s);
      RemoveReady(0, key, index, he, prev, j);
      ht0 := BypassHt(ht0, s, 0, key, index, he, prev, j, ht1);
      t0 := UnlinkInTable(t0, key);
      assert Model() == Remove(s, key);
    }

    method RemoveFoundNew(key: Key, index: nat, he: Entry, prev: Entry?, ghost j: nat)
      requires Valid() && t0 != [] && IsRehashing() && t1 != [] && index == Slot(key, |t1|)
      requires FindInTable(t0, key).None?
      requires Some(he) == FindInTable(t1, key) && FoundAt(t1[index], key, j, he, prev)
      modifies this, arrays, entries`next
      ensures Valid() && arrays == old(arrays) && entries == old(entries)
      ensures Model() == old(Remove(Model(), key))
    {
      hide WF, Bag, Slot, UnlinkInTable, ChainLinked, FindInTable;
      ghost var s := Model();
      RemoveReady(1, key, index, he, prev, j);
      ht1 := BypassHt(ht1, s, 1, key, index, he, prev, j, ht0);
      t1 := UnlinkInTable(t1, key);
      assert Model() == Remove(s, key);
    }

    /** dict_generic_delete; the unlinked entry keeps its key and value. */
    method DictDelete(key: Key) returns (r: int)
      requires Valid()
      modifies this, arrays, entries`next
      ensures Valid() && arrays == old(arrays) && entries == old(entries)
      ensures Model() == old(Delete(Model(), key))
      ensures r == if old(HasKey(Model(), key)) then 0 else 1
    {
      hide Valid, WF, Lookup, Bag, FoundAt, HasKey, Delete, Remove, FindInTable, StepIfFree;
      ghost var s := Model();
      ModelOk();
      UsedIsStored();
      if ht0.size == 0 {
        EmptyLookup(s, key);
        return DICT_ERR;
      }
      DeleteIsRemove(s, key);
      if IsRehashing() {
        RehashStep();
      } else {
        NoStep(s);
      }
      assert Model() == StepIfFree(s);
      var table, index, he, prev;
      ghost var j;
      table, index, he, prev, j := Search(key);
      if he == null {
        return DICT_ERR;
      }
      if table == 0 {
        RemoveFoundOld(key, index, he, prev, j);
      } else {
        RemoveFoundNew(key, index, he, prev, j);
      }
      return DICT_OK;
    }

    lemma FoundPresent(key: Key, he: Entry?)
      requires Valid() && HasKey(Model(), key) && ToOption(he) == Lookup(Model(), key)
      ensures he != null && he.key == key && he in entries
    {
      LookupIsMembership(Model(), key);
    }

    /** dict_replace: adds, or else sets the value of the key's entry. */
    method DictReplace(key: Key, val: object?, vallen: nat, canResize: bool) returns (r: int, ghost e: Entry?)
      requires Valid() && Room(Model())
      modifies this, arrays, entries
      ensures Valid() && fresh(arrays - old(arrays)) && fresh(entries - old(entries)) && entries >= old(entries)
      ensures r == if HasKey(old(Model()), key) then 0 else 1
      ensures e != null && e.key == key && e.val == val && e.vallen == vallen
      ensures r == 1 ==> fresh(e) && Model() == Add(old(Model()), e, canResize)
      ensures r == 0 ==> Model() == Find(Prepared(old(Model()), canResize), key) && Some(e) == Lookup(Model(), key)
      ensures forall x | x in old(entries) && (r == 1 || x != e) :: x.val == old(x.val) && x.vallen == old(x.vallen)
    {
      hide Valid, Lookup, Bag;
      var added;
      added, e := DictAdd(key, val, vallen, canResize);
      if added == DICT_OK {
        return 1, e;
      }
      ModelOk();
      var entry := DictFind(key);
      FoundPresent(key, entry);
      entry.val := val;
      entry.vallen := vallen;
      return 0, entry;
    }

    method SetIterators(k: int)
      requires Valid()
      modifies this`iterators
      ensures Valid() && iterators == k
    {
      hide WF, Stored;
      IteratorsAreFree(Model(), k);
      iterators := k;
    }
  }

  lemma IteratorsAreFree(s: State, k: int)
    requires WF(s)
    ensures WF(s.(iterators := k)) && Bag(s.(iterators := k)) == Bag(s)
  {
  }
}
