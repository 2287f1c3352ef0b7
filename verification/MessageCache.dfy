/** message_cache.cpp: partly received messages by session id, and the sweep
    that drops the expired ones. */
module MessageCache {
  import opened Wrappers
  import opened Bytes
  import opened DictModel
  import opened DictOps
  import opened DictRuns
  import opened DictIteration
  import opened DictSweep
  import opened SweepExact
  import opened Dict
  import opened DictIterator
  import opened CharDictionary
  import opened ReturnCodes

  /** A message body; what is in it does not matter here. */
  type Body

  class MsgCacheValue {
    var cmd: int
    var fromFd: int
    var lastOpTime: int
    var contents: Body

    constructor (cmd: int, fromFd: int, lastOpTime: int, contents: Body)
      ensures this.cmd == cmd && this.fromFd == fromFd
      ensures this.lastOpTime == lastOpTime && this.contents == contents
    {
      this.cmd, this.fromFd, this.lastOpTime, this.contents := cmd, fromFd, lastOpTime, contents;
    }
  }

  /** The clock, the time-consuming commands and the two configured timeouts. */
  datatype Limits = Limits(now: int, timeConsuming: int -> bool, defaultTimeout: int, maxTimeout: int)

  predicate Expired(v: MsgCacheValue, limits: Limits)
    reads v
  {
    limits.now - v.lastOpTime >= if limits.timeConsuming(v.cmd) then limits.maxTimeout else limits.defaultTimeout
  }

  ghost predicate Stale(x: Entry, limits: Limits)
    reads x`val, (if x.val is MsgCacheValue then {x.val as MsgCacheValue} else {})
  {
    x.val is MsgCacheValue && Expired(x.val as MsgCacheValue, limits)
  }

  /** A turn of the sweep, and all that comes after it. */
  lemma RunUnfolds(s: State, it: It, dead: set<Entry>)
    requires Sweeping(s, it) && it.entry.Some?
    ensures var r := Turned(s, it, dead);
            var n := Next(r, it);
            && Alive(r, it) && n.0 == r && n.1.entry == n.2 && Sweeping(r, n.1)
            && SweepRun(s, it, dead) == SweepRun(r, n.1, dead)
            && (n.1.entry.Some? ==> Below(s, it, r, n.1))
            && (forall x | x in Bag(r) :: x in Bag(s))
  {
    hide Sweeping, WF, Bag, Turned, Next, Tail, Link, Below, Alive;
    TurnSweeps(s, it, dead);
    TurnBelow(s, it, dead);
    TurnShrinks(s, it, dead);
  }

  lemma TurnShrinks(s: State, it: It, dead: set<Entry>)
    requires Sweeping(s, it) && it.entry.Some?
    ensures forall x | x in Bag(Turned(s, it, dead)) :: x in Bag(s)
  {
    hide Bag, Link;
    DeadGone(s, it, dead);
  }

  lemma SweepContents(s: State, dead: set<Entry>)
    requires WF(s) && |s.t0| < MAX_BUCKETS && |s.t1| < MAX_BUCKETS && Budget(s, dead)
    ensures WF(SweepOf(s, dead))
    ensures Contents(SweepOf(s, dead)) == map k | k in Contents(s) && Contents(s)[k] !in dead :: Contents(s)[k]
  {
    hide WF, Bag, Unique, MapOf, SweepOf, Represents, Budget;
    var r := SweepOf(s, dead);
    SweepIsExact(s, dead);
    WFUnique(s);
    WFUnique(r);
    MapOfRepresents(Bag(s));
    MapOfRepresents(Bag(r));
    FilterRepresents(Bag(s), Bag(r), dead, MapOf(Bag(s)), MapOf(Bag(r)));
  }

  lemma FilterRepresents(b: multiset<Entry>, c: multiset<Entry>, dead: set<Entry>,
                         m: map<Key, Entry>, n: map<Key, Entry>)
    requires Represents(m, b) && Represents(n, c)
    requires forall x :: x in c <==> x in b && x !in dead
    ensures n == map k | k in m && m[k] !in dead :: m[k]
  {
  }

  /** No living message is lost, whatever the tables do meanwhile. */
  lemma SweepSafe(s: State, dead: set<Entry>)
    requires WF(s)
    ensures var r := SweepOf(s, dead);
            && WF(r) && (forall x | x in Bag(r) :: x in Bag(s)) && (forall x | x in Bag(s) && x !in dead :: x in Bag(r))
  {
    hide WF, Bag, SweepRun, Next;
    SweepStarts(s);
    SweepKeepsLiving(s, Next(s, NewIt(false)).1, dead);
  }

  lemma SweepResult(s: State, dead: set<Entry>)
    requires WF(s)
    ensures var r := SweepOf(s, dead);
            && WF(r) && (forall x | x in Bag(r) :: x in Bag(s)) && (forall x | x in Bag(s) && x !in dead :: x in Bag(r))
            && (|s.t0| < MAX_BUCKETS && |s.t1| < MAX_BUCKETS && Budget(s, dead) ==>
                  && Contents(r) == (map k | k in Contents(s) && Contents(s)[k] !in dead :: Contents(s)[k])
                  && forall x | x in Bag(r) :: x !in dead)
  {
    hide Contents, Bag, SweepOf, Budget;
    SweepSafe(s, dead);
    if |s.t0| < MAX_BUCKETS && |s.t1| < MAX_BUCKETS && Budget(s, dead) {
      SweepContents(s, dead);
      SweepIsExact(s, dead);
    }
  }

  class MessageCache {
    const d: Dict

    ghost predicate Valid()
      reads d, d.arrays, d.entries
    {
      && d.Valid()
      && forall x | x in Bag(d.Model()) :: x.val == null || x.val is MsgCacheValue
    }

    /** The dictionary always gets the default size. */
    constructor (dictSize: int)
      ensures Valid() && fresh(d) && fresh(d.arrays) && fresh(d.entries)
      ensures Contents(d.Model()) == map[] && !d.IsRehashing() && LeastPower(|d.t0|, 1024)
    {
      DefaultIsCreatable();
      var created := CharDictCreate(DEFAULT_DICT_SIZE);
      d := created;
      new;
      EmptyContents(d.Model());
    }

    lemma EmptyContents(s: State)
      requires WF(s) && Contents(s) == map[]
      ensures Bag(s) == multiset{}
    {
      assert forall x | x in Bag(s) :: x.key in Contents(s);
    }

    /** What the sweep must know of every entry it will meet. */
    ghost predicate Judged(all: set<Entry>, dead: set<Entry>, limits: Limits)
      reads all`val, set x | x in all && x.val is MsgCacheValue :: x.val as MsgCacheValue
    {
      forall x | x in all :: (x.val == null || x.val is MsgCacheValue) && (Stale(x, limits) <==> x in dead)
    }

    /** Deletes the entry if it is stale. */
    method SweepEntry(entry: Entry, limits: Limits, ghost it: It, ghost dead: set<Entry>, ghost all: set<Entry>)
      requires d.Valid() && it.entry == Some(entry) && entry in all && WF(d.Model())
      requires Judged(all, dead, limits)
      modifies d, d.arrays, d.entries`next
      ensures d.Valid() && d.arrays == old(d.arrays) && d.entries == old(d.entries)
      ensures d.Model() == Turned(old(d.Model()), it, dead)
    {
      hide d.Valid, WF, Delete;
      if entry.val != null {
        var item := entry.val as MsgCacheValue;
        if Expired(item, limits) {
          var _ := d.DictDelete(entry.key);
        }
      }
    }

    /** The pass itself, from the entry its first call returned. */
    method SweepFrom(it: DictIterator, first: Entry?, limits: Limits, ghost dead: set<Entry>, ghost all: set<Entry>)
      requires it.d == d && d.Valid() && it.entry == first && Sweeping(d.Model(), it.View())
      requires Judged(all, dead, limits) && forall x | x in Bag(d.Model()) :: x in all
      modifies it, d, d.arrays, d.entries`next
      ensures d.Valid() && d.arrays == old(d.arrays) && d.entries == old(d.entries)
      ensures d.Model() == SweepRun(old(d.Model()), old(it.View()), dead)
      ensures Judged(all, dead, limits) && forall x | x in Bag(d.Model()) :: x in all
    {
      hide d.Valid, WF, Bag, Turned, Next, Judged, Link, Tail, Occupied, Migrating;
      var entry := first;
      while entry != null
        invariant d.Valid() && it.entry == entry
        invariant d.arrays == old(d.arrays) && d.entries == old(d.entries)
        invariant Sweeping(d.Model(), it.View())
        invariant SweepRun(d.Model(), it.View(), dead) == SweepRun(old(d.Model()), old(it.View()), dead)
        invariant Judged(all, dead, limits) && forall x | x in Bag(d.Model()) :: x in all
        decreases entry != null, Phase(d.Model()), 2 - it.table, Ahead(d.Model(), it.View()),
                  Occupied(d.Model(), it.View()), |Tail(d.Model(), it.View())|
      {
        ghost var s := d.Model();
        RunUnfolds(s, it.View(), dead);
        SweepEntry(entry, limits, it.View(), dead, all);
        entry := it.DictNext();
      }
    }

    /** The first call of the plain iterator. */
    method BeginSweep(limits: Limits, ghost dead: set<Entry>, ghost all: set<Entry>)
      returns (it: DictIterator, entry: Entry?)
      requires Valid() && forall x :: x in all <==> x in Bag(d.Model())
      requires forall x | x in all :: Stale(x, limits) <==> x in dead
      modifies d`iterators
      ensures fresh(it) && it.d == d && !it.safe && it.entry == entry
      ensures d.Valid() && d.Model() == old(d.Model())
      ensures WF(d.Model()) && Sweeping(d.Model(), it.View()) && it.View() == Next(d.Model(), NewIt(false)).1
      ensures Judged(all, dead, limits)
    {
      hide d.Valid, WF, Bag, Sweeping, Next, Link;
      ghost var s0 := d.Model();
      d.ModelOk();
      SweepStarts(s0);
      it := new DictIterator(d, false);
      entry := it.DictNext();
      forall x | x in all
        ensures (x.val == null || x.val is MsgCacheValue) && (Stale(x, limits) <==> x in dead)
      {
        assert old(allocated(x.val)) && x.val != it;
      }
    }

    /** What the ages of the entries decide about a sweep from b to r. */
    lemma AgeDecides(b: multiset<Entry>, r: multiset<Entry>, dead: set<Entry>, all: set<Entry>, limits: Limits)
      requires Judged(all, dead, limits) && (forall x | x in b :: x in all) && (forall x | x in r :: x in b)
      requires forall x | x in b && x !in dead :: x in r
      ensures forall x | x in b && x.val == null :: x in r
      ensures forall x | x in b && x.val is MsgCacheValue ::
                var v := x.val as MsgCacheValue;
                && (limits.timeConsuming(v.cmd) && limits.now - v.lastOpTime < limits.maxTimeout ==> x in r)
                && (!limits.timeConsuming(v.cmd) && limits.now - v.lastOpTime < limits.defaultTimeout ==> x in r)
      ensures (forall x | x in r :: x !in dead) ==>
                forall x | x in r && x.val is MsgCacheValue ::
                  var v := x.val as MsgCacheValue;
                  limits.now - v.lastOpTime <
                  if limits.timeConsuming(v.cmd) then limits.maxTimeout else limits.defaultTimeout
    {
    }

    /** The pass, given what it will drop. */
    method SweepOnce(limits: Limits, ghost dead: set<Entry>, ghost all: set<Entry>)
      requires Valid() && forall x :: x in all <==> x in Bag(d.Model())
      requires forall x :: x in dead <==> x in Bag(d.Model()) && Stale(x, limits)
      modifies d, d.arrays, d.entries`next
      ensures Valid() && d.arrays == old(d.arrays) && d.entries == old(d.entries)
      ensures old(WF(d.Model())) && d.Model() == SweepOf(old(d.Model()), dead)
      ensures Judged(all, dead, limits)
    {
      hide d.Valid, WF, Bag, Sweeping, Contents, Judged, SweepRun, Next, Link, Unique;
      d.ModelOk();
      d.ContentsOwned();
      SweepStarts(d.Model());
      var it, entry := BeginSweep(limits, dead, all);
      SweepFrom(it, entry, limits, dead, all);
      it.Release();
      d.ModelOk();
    }

    /** One pass of a plain iterator. Whatever rehash is under way, no entry without
        a message is lost, and no message whose age is below its own timeout: the
        longer one for the time-consuming commands. Every other one is dropped if
        deletions migrate nothing, or are so few that only the last can swap. */
    method CleanExpiredMessages(limits: Limits)
      requires Valid()
      modifies d, d.arrays, d.entries`next
      ensures Valid() && d.arrays == old(d.arrays) && d.entries == old(d.entries)
      ensures forall x | x in Bag(d.Model()) :: x in old(Bag(d.Model()))
      ensures forall x | x in old(Bag(d.Model())) && x.val == null :: x in Bag(d.Model())
      ensures forall x | x in old(Bag(d.Model())) && x.val is MsgCacheValue ::
                var v := x.val as MsgCacheValue;
                && (limits.timeConsuming(v.cmd) && limits.now - v.lastOpTime < limits.maxTimeout ==>
                      x in Bag(d.Model()))
                && (!limits.timeConsuming(v.cmd) && limits.now - v.lastOpTime < limits.defaultTimeout ==>
                      x in Bag(d.Model()))
      ensures var dead := old(set x | x in Bag(d.Model()) && Stale(x, limits));
              && old(WF(d.Model())) && d.Model() == SweepOf(old(d.Model()), dead)
              && (forall x | x in old(Bag(d.Model())) && x !in dead :: x in Bag(d.Model()))
              && (old(|d.t0| < MAX_BUCKETS && |d.t1| < MAX_BUCKETS) && Budget(old(d.Model()), dead) ==>
                    && Contents(d.Model()) ==
                       (map k | k in old(Contents(d.Model())) && old(Contents(d.Model()))[k] !in dead ::
                          old(Contents(d.Model()))[k])
                    && forall x | x in Bag(d.Model()) && x.val is MsgCacheValue ::
                         var v := x.val as MsgCacheValue;
                         limits.now - v.lastOpTime <
                         if limits.timeConsuming(v.cmd) then limits.maxTimeout else limits.defaultTimeout)
    {
      hide d.Valid, WF, Bag, Contents, Judged, SweepOf, Budget, Stale;
      ghost var s0 := d.Model();
      d.ModelOk();
      ghost var dead := set x | x in Bag(s0) && Stale(x, limits);
      ghost var all := set x | x in Bag(s0);
      SweepOnce(limits, dead, all);
      SweepResult(s0, dead);
      AgeDecides(Bag(s0), Bag(d.Model()), dead, all, limits);
    }

    lemma ContentsInBag(s: State)
      requires WF(s)
      ensures forall k | k in Contents(s) :: Contents(s)[k] in Bag(s)
    {
    }

    method Add(key: Key, val: MsgCacheValue?, vallen: int) returns (ret: int, ghost e: Entry?)
      requires Valid() && Room(d.Model())
      modifies d, d.arrays, d.entries`next
      ensures Valid() && fresh(d.arrays - old(d.arrays)) && fresh(d.entries - old(d.entries))
      ensures d.entries >= old(d.entries)
      ensures ret == RET_OK || ret == RET_FAILED
      ensures ret == RET_OK <==> val != null && key != [] && vallen > 0 && key !in old(Contents(d.Model()))
      ensures ret == RET_OK ==>
                && e != null && fresh(e) && e.key == key && e.val == val && e.vallen == vallen
                && Contents(d.Model()) == old(Contents(d.Model()))[key := e]
      ensures ret == RET_FAILED ==> Contents(d.Model()) == old(Contents(d.Model()))
    {
      hide d.Valid, WF, Bag, Contents, Room;
      ghost var s := d.Model();
      d.ModelOk();
      d.ContentsOwned();
      TypedContents();
      ret, e := AddElement(key, val, vallen, d);
      d.ModelOk();
      TypedByContents();
    }

    method Del(key: Key) returns (ret: int)
      requires Valid()
      modifies d, d.arrays, d.entries`next
      ensures Valid() && d.arrays == old(d.arrays) && d.entries == old(d.entries)
      ensures ret == if key in old(Contents(d.Model())) then RET_OK else RET_FAILED
      ensures Contents(d.Model()) == old(Contents(d.Model())) - {key}
    {
      hide d.Valid, WF, Bag, Contents;
      d.ModelOk();
      d.ContentsOwned();
      TypedContents();
      ret := DeleteElement(key, d);
      d.ModelOk();
      TypedByContents();
    }

    method Find(key: Key) returns (val: MsgCacheValue?)
      requires Valid()
      modifies d, d.arrays, d.entries`next
      ensures Valid() && d.arrays == old(d.arrays) && d.entries == old(d.entries)
      ensures Contents(d.Model()) == old(Contents(d.Model()))
      ensures var m := old(Contents(d.Model()));
              val == if key in m then old(Contents(d.Model())[key].val) else null
    {
      hide d.Valid, WF, Bag, Contents;
      d.ModelOk();
      d.ContentsOwned();
      TypedContents();
      var found: object? := FindValue(key, d);
      d.ModelOk();
      TypedByContents();
      if found == null {
        return null;
      }
      val := found as MsgCacheValue;
    }

    lemma TypedContents()
      requires Valid()
      ensures forall k | k in Contents(d.Model()) ::
                Contents(d.Model())[k].val == null || Contents(d.Model())[k].val is MsgCacheValue
      ensures forall k | k in Contents(d.Model()) :: Contents(d.Model())[k] in d.entries
    {
      ContentsInBag(d.Model());
    }

    lemma TypedByContents()
      requires d.Valid()
      requires forall k | k in Contents(d.Model()) ::
                Contents(d.Model())[k].val == null || Contents(d.Model())[k].val is MsgCacheValue
      ensures Valid()
    {
      MapOfRepresents(Bag(d.Model()));
      forall x | x in Bag(d.Model())
        ensures x.val == null || x.val is MsgCacheValue
      {
        assert x.key in Contents(d.Model()) && Contents(d.Model())[x.key] == x;
      }
    }
  }
}
