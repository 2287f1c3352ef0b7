/** char_dictionary.cpp: string-keyed dictionaries, seen as finite maps from
    keys to entry objects whatever the tables beneath are doing. */
module CharDictionary {
  import opened Sequences
  import opened Wrappers
  import opened Bytes
  import opened HashArithmetic
  import opened DictModel
  import opened DictOps
  import opened DictRuns
  import opened DictIteration
  import opened DictSafePass
  import opened Dict
  import opened DictIterator
  import opened ReturnCodes

  const DEFAULT_ELEMENT_COUNT := 1024

  /** The size _dict_next_power picks for a dictionary asked to hold n elements. */
  ghost predicate Creatable(n: int) {
    NextPowerOf(if n < 0 then DEFAULT_ELEMENT_COUNT else n) <= MAX_BUCKETS
  }

  /** The size every cache asks for. */
  const DEFAULT_DICT_SIZE := 1024

  lemma DefaultIsCreatable()
    ensures Creatable(DEFAULT_DICT_SIZE)
  {
    Pow2Max();
    DoubleToIsLeast(INITIAL_SIZE, DEFAULT_DICT_SIZE, MAX_BUCKETS);
  }

  /** The first table has the least power of two of buckets that is enough, 1024 by default. */
  method CharDictCreate(dictSize: int) returns (d: Dict)
    requires dictSize < MAX_BUCKETS && Creatable(dictSize)
    ensures fresh(d) && fresh(d.arrays) && fresh(d.entries) && d.Valid()
    ensures Contents(d.Model()) == map[] && LoadOk(d.Model()) && !d.IsRehashing() && d.iterators == 0
    ensures LeastPower(|d.t0|, if dictSize < 0 then 1024 else dictSize)
  {
    d := new Dict();
    var actualSize := if dictSize < 0 then DEFAULT_ELEMENT_COUNT else dictSize;
    CreatedFacts(actualSize);
    hide d.Valid, Bag, Contents, LoadOk, Expand, WF, Used, Flat;
    var _ := d.DictExpand(actualSize);
  }

  lemma CreatedFacts(size: nat)
    requires NextPowerOf(size) <= MAX_BUCKETS
    ensures WF(NEW_DICT) && CanExpand(NEW_DICT, size) && ExpandFits(NEW_DICT, size)
    ensures var r := Expand(NEW_DICT, size);
            Contents(r) == map[] && LoadOk(r) && !r.Rehashing() && r.iterators == 0 && LeastPower(|r.t0|, size)
  {
    NewDictIsEmpty();
    ExpandDoes(NEW_DICT, size);
    assert Bag(NEW_DICT) == multiset{};
    SizingKeepsLoad(NEW_DICT, size);
  }

  /** Adds a new key; an existing key, a null value or an empty key or value is refused. */
  method AddElement(key: Key, val: object?, vallen: int, d: Dict) returns (ret: int, ghost e: Entry?)
    requires d.Valid() && Room(d.Model())
    modifies d, d.arrays, d.entries`next
    ensures d.Valid() && fresh(d.arrays - old(d.arrays)) && fresh(d.entries - old(d.entries))
    ensures d.entries >= old(d.entries)
    ensures d.iterators == old(d.iterators)
    ensures ret == RET_OK || ret == RET_FAILED
    ensures ret == RET_OK <==>
              val != null && key != [] && vallen > 0 && key !in old(Contents(d.Model()))
    ensures ret == RET_OK ==>
              && e != null && fresh(e) && e.key == key && e.val == val && e.vallen == vallen
              && Contents(d.Model()) == old(Contents(d.Model()))[key := e]
    ensures ret == RET_FAILED ==> Contents(d.Model()) == old(Contents(d.Model()))
  {
    hide d.Valid, Bag, Room, Contents, Add, Prepared, Lookup, HasKey;
    ghost var s := d.Model();
    d.ModelOk();
    PreparedContents(s, true);
    e := null;
    if val == null || |key| <= 0 || vallen <= 0 {
      return RET_FAILED, null;
    }
    LookupIsMapFind(s, key);
    var added;
    added, e := d.DictAdd(key, val, vallen, true);
    if added != DICT_OK {
      return RET_FAILED, e;
    }
    AddRefinesMap(s, e, true);
    return RET_OK, e;
  }

  method FindEntry(key: Key, d: Dict) returns (entry: Entry?)
    requires d.Valid()
    modifies d, d.arrays, d.entries`next
    ensures d.Valid() && d.arrays == old(d.arrays) && d.entries == old(d.entries)
    ensures d.iterators == old(d.iterators)
    ensures Contents(d.Model()) == old(Contents(d.Model()))
    ensures ToOption(entry) == MapFind(old(Contents(d.Model())), key)
  {
    hide d.Valid, Bag, Lookup, Contents, Find;
    ghost var s := d.Model();
    d.ModelOk();
    FindRefinesMap(s, key);
    entry := d.DictFind(key);
  }

  method FindValue(key: Key, d: Dict) returns (val: object?)
    requires d.Valid()
    modifies d, d.arrays, d.entries`next
    ensures d.Valid() && d.arrays == old(d.arrays) && d.entries == old(d.entries)
    ensures d.iterators == old(d.iterators)
    ensures Contents(d.Model()) == old(Contents(d.Model()))
    ensures val == var m := old(Contents(d.Model())); if key in m then old(Contents(d.Model())[key].val) else null
  {
    d.ContentsOwned();
    var entry := FindEntry(key, d);
    val := if entry == null then null else entry.val;
  }

  /** Finds the entry, then unlinks it by its own key. */
  method DeleteElement(key: Key, d: Dict) returns (ret: int)
    requires d.Valid()
    modifies d, d.arrays, d.entries`next
    ensures d.Valid() && d.arrays == old(d.arrays) && d.entries == old(d.entries)
    ensures d.iterators == old(d.iterators)
    ensures ret == if key in old(Contents(d.Model())) then RET_OK else RET_FAILED
    ensures Contents(d.Model()) == old(Contents(d.Model())) - {key}
  {
    hide d.Valid, WF, Bag, Contents, Lookup, HasKey, Delete;
    d.ModelOk();
    var entry := FindEntry(key, d);
    if entry == null {
      return RET_FAILED;
    }
    d.ModelOk();
    ghost var s := d.Model();
    LookupIsMapFind(s, key);
    DeleteRefinesMap(s, key);
    FoundKey(s, key);
    var r := d.DictDelete(entry.key);
    ret := if r == DICT_OK then RET_OK else RET_FAILED;
  }

  lemma FoundKey(s: State, key: Key)
    requires WF(s) && key in Contents(s)
    ensures Contents(s)[key].key == key
  {
  }

  /** What an iterator's call has returned or will return. */
  ghost function Coming(s: State, it: It): seq<Entry> {
    if it.entry.Some? && ItOk(s, it) then [it.entry.value] + Pending(s, it) else []
  }

  lemma NothingComing(s: State, it: It)
    requires it.entry.None?
    ensures Coming(s, it) == []
  {
  }

  lemma NextComing(s: State, it: It)
    requires WF(s) && ItOk(s, it)
    ensures var r := Next(s, it);
            && r.0 == Counted(s, it) && r.1.safe == it.safe && r.1.Started() && r.1.entry == r.2
            && (r.2.Some? ==> ItOk(r.0, r.1))
            && Coming(r.0, r.1) == Pending(s, it)
            && (r.2.None? ==> Coming(r.0, r.1) == [])
    ensures it.entry.Some? ==> Coming(s, it) == [it.entry.value] + Pending(s, it)
  {
    hide WF, Pending, Next, ItOk;
    NextTakes(s, it);
  }

  /** In the middle of a pass over state s: what is visited and what is coming make up all. */
  ghost predicate InPass(it: DictIterator, s: State, visited: seq<Entry>, all: seq<Entry>)
    reads it
  {
    && it.View().Started()
    && (it.entry != null ==> ItOk(s, it.View()))
    && visited + Coming(s, it.View()) == all
  }

  /** One turn of a pass: the entry returned before is now visited. */
  method Turn(it: DictIterator, ghost s: State, last: Entry, ghost visited: seq<Entry>, ghost all: seq<Entry>)
    returns (entry: Entry?)
    requires it.d.Valid() && it.d.Model() == s && it.entry == last && InPass(it, s, visited, all)
    modifies it, it.d`iterators
    ensures it.d.Valid() && it.d.Model() == s && it.entry == entry && InPass(it, s, visited + [last], all)
    ensures |Coming(s, it.View())| < |old(Coming(s, it.View()))|
  {
    hide it.d.Valid, ItOk, Pending, Next, WF, Coming;
    it.d.ModelOk();
    NextComing(s, it.View());
    Assoc(visited, [last], Pending(s, it.View()));
    OkIsAlive(s, it.View());
    entry := it.DictNext();
  }

  /** A full pass of a safe iterator: the action meets every entry exactly once,
      and the dictionary is left as it was. */
  method BatchOperation(d: Dict) returns (visited: seq<Entry>)
    requires d.Valid() && |d.t0| < MAX_BUCKETS && |d.t1| < MAX_BUCKETS
    modifies d`iterators
    ensures d.Valid() && d.Model() == old(d.Model())
    ensures multiset(visited) == Bag(d.Model()) && NoDup(visited)
  {
    hide d.Valid, Bag, ItOk, Pending, Next, WF, NoDup, Coming;
    ghost var s := d.Model();
    d.ModelOk();
    PendingAtStart(s, true);
    FreshItOk(s, true);
    NextComing(s, NewIt(true));
    var it := new DictIterator(d, true);
    ghost var s', all := s.(iterators := s.iterators + 1), Pending(s, NewIt(true));
    visited := [];
    var entry := it.DictNext();
    while entry != null
      invariant it.d == d && it.safe && d.Valid() && d.Model() == s'
      invariant it.entry == entry && InPass(it, s', visited, all)
      decreases |Coming(s', it.View())|
    {
      var last: Entry := entry;
      entry := Turn(it, s', last, visited, all);
      visited := visited + [last];
    }
    NothingComing(s', it.View());
    assert visited + [] == visited == all;
    it.Release();
  }

  // ----- deleting every entry in a pass of its own -----

  /** While a safe iterator runs, deleting the entry it returned leaves all that is still to come. */
  lemma DeletedInPass(s: State, it: It, e: Entry)
    requires WF(s) && s.iterators != 0 && ItOk(s, it) && it.entry == Some(e)
    requires e in Bag(s) && e !in Pending(s, it)
    ensures var r := Delete(s, e.key);
            && ItOk(r, it) && Pending(r, it) == Pending(s, it)
            && Bag(r) == Bag(s) - multiset{e} && r.iterators == s.iterators
  {
    hide WF, Bag, Pending, Lookup, Delete, Remove;
    LookupFinds(s, e);
    OldTableThere(s);
    FrozenStep(s, e.key);
    RemovePending(s, it, e.key);
  }

  /** In the middle of the pass: exactly what is coming is still in the dictionary. */
  ghost predicate Emptying(s: State, it: It) {
    && WF(s) && s.iterators != 0 && it.Started() && NoDup(Coming(s, it))
    && (it.entry.Some? ==> ItOk(s, it))
    && Bag(s) == multiset(Coming(s, it))
  }

  lemma EmptyingTurn(s: State, it: It)
    requires Emptying(s, it) && it.entry.Some?
    ensures ItOk(Delete(s, it.entry.value.key), it)
    ensures var e := it.entry.value;
            var r := Delete(s, e.key);
            var n := Next(r, it);
            && n.0 == r && n.1.entry == n.2 && n.1.safe == it.safe && Emptying(r, n.1)
            && Coming(s, it) == [e] + Coming(r, n.1)
  {
    hide WF, Bag, Pending, Delete, Next, ItOk, NoDup, Coming;
    var e := it.entry.value;
    ComingSplits(s, it);
    HeadApart(e, Pending(s, it));
    DeletedInPass(s, it, e);
    NextComing(Delete(s, e.key), it);
  }

  lemma ComingSplits(s: State, it: It)
    requires it.entry.Some? && ItOk(s, it)
    ensures Coming(s, it) == [it.entry.value] + Pending(s, it)
  {
  }

  lemma HeadApart(e: Entry, rest: seq<Entry>)
    requires NoDup([e] + rest)
    ensures NoDup(rest) && e !in rest
    ensures multiset([e] + rest) - multiset{e} == multiset(rest) && e in multiset([e] + rest)
  {
    var all := [e] + rest;
    assert forall i | 0 <= i < |rest| :: all[i + 1] == rest[i];
    assert all[0] == e;
  }

  lemma EmptyingBegins(s: State)
    requires WF(s) && |s.t0| < MAX_BUCKETS && |s.t1| < MAX_BUCKETS && s.iterators >= 0
    ensures ItOk(s, NewIt(true))
    ensures var n := Next(s, NewIt(true));
            n.1.entry == n.2 && n.1.safe && Emptying(n.0, n.1) && multiset(Coming(n.0, n.1)) == Bag(s)
  {
    hide WF, Bag, Pending, Next, ItOk, NoDup, Coming;
    PendingAtStart(s, true);
    FreshItOk(s, true);
    NextComing(s, NewIt(true));
    CountedKeeps(s, NewIt(true));
  }

  lemma Emptied(s: State, it: It)
    requires Emptying(s, it) && it.entry.None?
    ensures Coming(s, it) == [] && Bag(s) == multiset{}
  {
  }

  /** One turn: the entry returned before is deleted, the next one is returned. */
  method DestroyTurn(it: DictIterator, last: Entry) returns (entry: Entry?)
    requires it.d.Valid() && it.safe && it.entry == last && Emptying(it.d.Model(), it.View())
    modifies it, it.d, it.d.arrays, it.d.entries`next
    ensures it.d.Valid() && it.entry == entry && Emptying(it.d.Model(), it.View())
    ensures it.d.arrays == old(it.d.arrays) && it.d.entries == old(it.d.entries)
    ensures old(Coming(it.d.Model(), it.View())) == [last] + Coming(it.d.Model(), it.View())
  {
    hide it.d.Valid, WF, Bag, Pending, Next, ItOk, NoDup, Coming, Delete, Emptying;
    it.d.ModelOk();
    EmptyingTurn(it.d.Model(), it.View());
    var _ := it.d.DictDelete(last.key);
    OkIsAlive(it.d.Model(), it.View());
    entry := it.DictNext();
  }

  /** Deletes every entry in a pass of a safe iterator; each is met once. */
  method CharDictDestroy(d: Dict) returns (released: seq<Entry>)
    requires d.Valid() && |d.t0| < MAX_BUCKETS && |d.t1| < MAX_BUCKETS && d.iterators >= 0
    modifies d, d.arrays, d.entries`next
    ensures d.Valid() && Bag(d.Model()) == multiset{}
    ensures multiset(released) == old(Bag(d.Model()))
  {
    hide d.Valid, WF, Bag, Pending, Next, ItOk, NoDup, Coming, Emptying;
    d.ModelOk();
    EmptyingBegins(d.Model());
    var it := new DictIterator(d, true);
    released := [];
    var entry := it.DictNext();
    ghost var all := Coming(d.Model(), it.View());
    while entry != null
      invariant it.d == d && it.safe && d.Valid() && it.entry == entry
      invariant Emptying(d.Model(), it.View()) && released + Coming(d.Model(), it.View()) == all
      invariant d.arrays == old(d.arrays) && d.entries == old(d.entries)
      decreases |Coming(d.Model(), it.View())|
    {
      var last: Entry := entry;
      entry := DestroyTurn(it, last);
      Assoc(released, [last], Coming(d.Model(), it.View()));
      released := released + [last];
    }
    Emptied(d.Model(), it.View());
    assert released + [] == released == all;
    d.ModelOk();
    IteratorsAreFree(d.Model(), d.iterators - 1);
    it.Release();
  }
}
