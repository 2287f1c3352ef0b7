/** The dictionary as a value: two bucket tables, the migration index and the
    count of running safe iterators. Every operation of dict.c is a function on
    such values; class Dict.Dict is proved to compute these functions. */
module DictModel {
  import opened Wrappers
  import opened Bytes
  import opened HashArithmetic

  /** A chained entry. Callers keep references to entries across rehashes. */
  class Entry {
    const key: Key
    var val: object?
    var vallen: nat
    var next: Entry?

    constructor (key: Key, val: object?, vallen: nat, next: Entry?)
      ensures this.key == key && this.val == val && this.vallen == vallen && this.next == next
    {
      this.key, this.val, this.vallen, this.next := key, val, vallen, next;
    }
  }

  type Chain = seq<Entry>
  type Buckets = seq<Chain>

  /** Bucket indices are C ints, so a table has at most 2^31 buckets. */
  const MAX_BUCKETS := 0x8000_0000
  const FORCE_RESIZE_RATIO := 5

  datatype State = State(t0: Buckets, t1: Buckets, rehashidx: int, iterators: int) {
    predicate Rehashing() {
      rehashidx != -1
    }
  }

  const NEW_DICT := State([], [], -1, 0)

  // ----- contents -----

  /** hash & sizemask: a bucket of a table of that size. */
  function Slot(key: Key, size: nat): (i: nat)
    requires size > 0
    ensures i < size
  {
    BitAnd(Hash(key), size - 1)
  }

  /** With a power-of-two size it is the remainder of the hash. */
  lemma SlotIsRemainder(key: Key, size: nat)
    requires IsPow2(size)
    ensures Slot(key, size) == Hash(key) % size
  {
    MaskIsMod(Hash(key), size);
  }

  /** All entries of a table, bucket by bucket. */
  ghost function Flat(t: Buckets): seq<Entry> {
    if t == [] then [] else t[0] + Flat(t[1..])
  }

  ghost function Bag(s: State): multiset<Entry> {
    multiset(Flat(s.t0)) + multiset(Flat(s.t1))
  }

  ghost function Used(t: Buckets): nat {
    |Flat(t)|
  }

  ghost function NonEmpty(t: Buckets): nat {
    if t == [] then 0 else (if t[0] == [] then 0 else 1) + NonEmpty(t[1..])
  }

  /** First entry of a chain with the given key. */
  function FindIn(c: Chain, key: Key): (r: Option<Entry>)
    ensures r.Some? ==> r.value in c && r.value.key == key
    ensures r.None? ==> forall x | x in c :: x.key != key
  {
    if c == [] then None else if c[0].key == key then Some(c[0]) else FindIn(c[1..], key)
  }

  function FindInTable(t: Buckets, key: Key): Option<Entry> {
    if t == [] then None else FindIn(t[Slot(key, |t|)], key)
  }

  function Lookup(s: State, key: Key): Option<Entry> {
    var r := FindInTable(s.t0, key);
    if r.Some? || !s.Rehashing() then r else FindInTable(s.t1, key)
  }

  // ----- well-formedness -----

  ghost predicate Placed(t: Buckets) {
    forall i, x | 0 <= i < |t| && x in t[i] :: Slot(x.key, |t|) == i
  }

  /** Two entries under one key. */
  predicate Clash(x: Entry, y: Entry) {
    x != y && x.key == y.key
  }

  ghost predicate Unique(b: multiset<Entry>) {
    && (forall x | x in b :: b[x] == 1)
    && (forall x, y {:trigger Clash(x, y)} | x in b && y in b :: !Clash(x, y))
  }

  lemma UniqueKeys(b: multiset<Entry>)
    requires Unique(b)
    ensures forall x, y | x in b && y in b && x.key == y.key :: x == y
  {
    assert forall x, y | x in b && y in b && x.key == y.key :: !Clash(x, y);
  }

  lemma TablesDisjoint(s: State, x: Entry)
    requires Unique(Bag(s))
    ensures !(x in Flat(s.t0) && x in Flat(s.t1))
  {
    assert x in Flat(s.t0) ==> multiset(Flat(s.t0))[x] >= 1 && x in Bag(s);
    assert Bag(s)[x] == multiset(Flat(s.t0))[x] + multiset(Flat(s.t1))[x];
    assert x in Flat(s.t1) ==> multiset(Flat(s.t1))[x] >= 1;
  }

  predicate SizeOk(n: nat) {
    n == 0 || (IsPow2(n) && INITIAL_SIZE <= n <= MAX_BUCKETS)
  }

  ghost predicate Shape(s: State) {
    && SizeOk(|s.t0|) && SizeOk(|s.t1|)
    && (s.Rehashing() ==>
          && s.t0 != [] && s.t1 != [] && |s.t0| < MAX_BUCKETS
          && 0 <= s.rehashidx <= |s.t0|
          && forall i | 0 <= i < s.rehashidx :: s.t0[i] == [])
    && (!s.Rehashing() ==> s.t1 == [])
  }

  ghost predicate WF(s: State) {
    Shape(s) && Placed(s.t0) && Placed(s.t1) && Unique(Bag(s))
  }

  // ----- facts about tables -----

  lemma {:induction false} FlatUpdate(t: Buckets, i: nat, c: Chain)
    requires i < |t|
    ensures multiset(t[i]) <= multiset(Flat(t))
    ensures multiset(Flat(t[i := c])) == multiset(Flat(t)) - multiset(t[i]) + multiset(c)
  {
    FlatSplit(t, i);
    FlatSplit(t[i := c], i);
    assert t[i := c][..i] == t[..i] && t[i := c][i + 1..] == t[i + 1..];
  }

  lemma {:induction false} FlatSplit(t: Buckets, i: nat)
    requires i < |t|
    ensures Flat(t) == Flat(t[..i]) + t[i] + Flat(t[i + 1..])
  {
    if i > 0 {
      FlatSplit(t[1..], i - 1);
      assert t[1..][..i - 1] == t[..i][1..];
      assert t[1..][i..] == t[i + 1..];
    }
  }

  lemma {:induction false} InFlat(t: Buckets, x: Entry)
    ensures x in Flat(t) <==> exists i :: 0 <= i < |t| && x in t[i]
  {
    if t != [] {
      InFlat(t[1..], x);
      if x in Flat(t[1..]) {
        var i :| 0 <= i < |t[1..]| && x in t[1..][i];
        assert x in t[i + 1];
      }
      forall i | 0 <= i < |t| && x in t[i]
        ensures x in Flat(t)
      {
        if i > 0 {
          assert x in t[1..][i - 1];
        }
      }
    }
  }

  /** A placed table holds an entry exactly if the bucket of its key does. */
  lemma InSlot(t: Buckets, x: Entry)
    requires Placed(t)
    ensures x in Flat(t) <==> t != [] && x in t[Slot(x.key, |t|)]
  {
    InFlat(t, x);
  }

  lemma {:induction false} FlatEmpty(t: Buckets)
    ensures Used(t) == 0 <==> forall i | 0 <= i < |t| :: t[i] == []
    ensures Used(t) == 0 <==> NonEmpty(t) == 0
    ensures NonEmpty(t) <= Used(t) && NonEmpty(t) <= |t|
  {
    if t != [] {
      FlatEmpty(t[1..]);
      assert forall i | 0 < i < |t| :: t[i] == t[1..][i - 1];
      if Used(t) == 0 {
        assert t[0] == [];
      }
    }
  }

  lemma {:induction false} NonEmptyUpdate(t: Buckets, i: nat, c: Chain)
    requires i < |t|
    ensures NonEmpty(t[i := c]) == NonEmpty(t) - (if t[i] == [] then 0 else 1) + (if c == [] then 0 else 1)
  {
    var u := t[i := c];
    if i == 0 {
      assert u[1..] == t[1..];
    } else {
      assert u[1..] == t[1..][i - 1 := c];
      NonEmptyUpdate(t[1..], i - 1, c);
    }
  }

  /** Lookup finds the entry of a key exactly when the dictionary has one. */
  lemma LookupIsMembership(s: State, key: Key)
    requires WF(s)
    ensures Lookup(s, key).Some? ==> Lookup(s, key).value in Bag(s) && Lookup(s, key).value.key == key
    ensures Lookup(s, key).None? ==> forall x | x in Bag(s) :: x.key != key
  {
    var r := Lookup(s, key);
    if r.Some? {
      InSlot(s.t0, r.value);
      InSlot(s.t1, r.value);
    } else {
      forall x | x in Bag(s)
        ensures x.key != key
      {
        InSlot(s.t0, x);
        InSlot(s.t1, x);
      }
    }
  }

  /** Lookup finds just that entry. */
  lemma LookupFinds(s: State, x: Entry)
    requires WF(s) && x in Bag(s)
    ensures Lookup(s, x.key) == Some(x)
  {
    LookupIsMembership(s, x.key);
    UniqueKeys(Bag(s));
  }
}
