/** packet_processor.cpp, single_operator_general_flow: the fragments of a
    message are grouped in its cache entry until the final one arrives. */
module FragmentAssembly {
  import opened Bytes
  import opened DictModel
  import opened DictOps
  import opened DictRuns
  import opened ReturnCodes
  import opened MessageCache
  import opened FragmentModel

  /** Size of a pointer: the code passes the size of the item's address, not of the item. */
  const ITEM_SIZE := 8

  /** Every entry holds an item of its own. */
  ghost predicate Exclusive(m: map<Key, Entry>)
    reads m.Values`val
  {
    && (forall k | k in m :: m[k].val is MsgCacheValue)
    && (forall j, k | j in m && k in m :: m[j].val == m[k].val ==> j == k)
  }

  ghost function Items(m: map<Key, Entry>): set<MsgCacheValue>
    requires Exclusive(m)
    reads m.Values`val
  {
    set k | k in m :: m[k].val as MsgCacheValue
  }

  /** The partly received messages the cache holds. */
  ghost function Bodies(m: map<Key, Entry>): Sessions
    requires Exclusive(m)
    reads m.Values`val, Items(m)
  {
    map k | k in m :: (m[k].val as MsgCacheValue).contents
  }

  /** What else an item holds: its command, where it came from and when it was last worked on. */
  datatype Head = Head(cmd: int, fromFd: int, lastOpTime: int)

  function HeadOf(item: MsgCacheValue): Head
    reads item
  {
    Head(item.cmd, item.fromFd, item.lastOpTime)
  }

  ghost function Heads(m: map<Key, Entry>): map<Key, Head>
    requires Exclusive(m)
    reads m.Values`val, Items(m)
  {
    map k | k in m :: HeadOf(m[k].val as MsgCacheValue)
  }

  lemma HeadKeys(m: map<Key, Entry>)
    requires Exclusive(m)
    ensures Bodies(m).Keys == Heads(m).Keys == m.Keys
    ensures forall k | k in m ::
              var item := m[k].val as MsgCacheValue; Bodies(m)[k] == item.contents && Heads(m)[k] == HeadOf(item)
  {
  }

  /** The item found for a session, the cache being as before. */
  method FindItem(cache: MessageCache, sid: Key, ghost m: map<Key, Entry>) returns (item: MsgCacheValue?)
    requires cache.Valid() && m == Contents(cache.d.Model()) && Exclusive(m)
    modifies cache.d, cache.d.arrays, cache.d.entries`next
    ensures cache.Valid() && cache.d.arrays == old(cache.d.arrays) && cache.d.entries == old(cache.d.entries)
    ensures Contents(cache.d.Model()) == m && Bag(cache.d.Model()) == old(Bag(cache.d.Model()))
    ensures Exclusive(m) && Items(m) == old(Items(m))
    ensures Bodies(m) == old(Bodies(m)) && Heads(m) == old(Heads(m))
    ensures item != null <==> sid in m
    ensures item != null ==> m[sid].val == item
  {
    hide cache.d.Valid, Contents, Bag, WF, Bodies, Heads;
    ghost var s := cache.d.Model();
    cache.d.ModelOk();
    item := cache.Find(sid);
    cache.d.ModelOk();
    ContentsGiveBag(s, cache.d.Model());
  }

  method NewItem(cmd: int, fd: int, leftover: int, empty: Body, ghost m: map<Key, Entry>)
    returns (item: MsgCacheValue)
    requires Exclusive(m)
    ensures fresh(item) && item.contents == empty && HeadOf(item) == Head(cmd, fd, leftover)
    ensures Exclusive(m) && Items(m) == old(Items(m)) && item !in Items(m)
    ensures Bodies(m) == old(Bodies(m)) && Heads(m) == old(Heads(m))
  {
    item := new MsgCacheValue(cmd, fd, leftover, empty);
  }

  lemma ItemAdded(m: map<Key, Entry>, sid: Key, e: Entry, item: MsgCacheValue)
    requires Exclusive(m) && sid !in m && e.val == item && item !in Items(m)
    ensures Exclusive(m[sid := e]) && Items(m[sid := e]) == Items(m) + {item}
    ensures Bodies(m[sid := e]) == Bodies(m)[sid := item.contents]
    ensures Heads(m[sid := e]) == Heads(m)[sid := HeadOf(item)]
  {
    var n := m[sid := e];
    assert forall k | k in m :: m[k].val as MsgCacheValue in Items(m);
    assert n[sid] == e;
    assert forall k | k in m :: n[k] == m[k];
    assert forall v | v in Items(m) :: v in Items(n);
    BodiesAdded(m, sid, e, item);
  }

  lemma BodiesAdded(m: map<Key, Entry>, sid: Key, e: Entry, item: MsgCacheValue)
    requires Exclusive(m) && Exclusive(m[sid := e]) && sid !in m && e.val == item
    ensures Bodies(m[sid := e]) == Bodies(m)[sid := item.contents]
    ensures Heads(m[sid := e]) == Heads(m)[sid := HeadOf(item)]
  {
    hide Exclusive, Bodies, Heads, HeadOf;
    HeadKeys(m);
    HeadKeys(m[sid := e]);
  }

  method AddItem(cache: MessageCache, sid: Key, item: MsgCacheValue, ghost m: map<Key, Entry>) returns (added: bool,
                 ghost e: Entry?)
    requires cache.Valid() && Room(cache.d.Model()) && m == Contents(cache.d.Model()) && Exclusive(m)
    requires sid !in m
    modifies cache.d, cache.d.arrays, cache.d.entries`next
    ensures cache.Valid() && Exclusive(m) && Items(m) == old(Items(m))
    ensures Bodies(m) == old(Bodies(m)) && Heads(m) == old(Heads(m))
    ensures fresh(cache.d.arrays - old(cache.d.arrays)) && fresh(cache.d.entries - old(cache.d.entries))
    ensures added <==> sid != []
    ensures Contents(cache.d.Model()) == if added && e != null then m[sid := e] else m
    ensures added ==> e != null && e.val == item && e.vallen == 8
  {
    hide cache.d.Valid, Contents, Bag, WF, Room, Bodies, Heads;
    cache.d.ModelOk();
    var ret;
    ret, e := cache.Add(sid, item, ITEM_SIZE);
    cache.d.ModelOk();
    added := ret == RET_OK;
  }

  /** A new entry for the session, with an item of its own. */
  method CreateItem(cache: MessageCache, sid: Key, cmd: int, fd: int, leftover: int, empty: Body, ghost m: map<Key,
                    Entry>)
    returns (item: MsgCacheValue?)
    requires cache.Valid() && Room(cache.d.Model()) && m == Contents(cache.d.Model()) && Exclusive(m)
    requires sid !in m
    modifies cache.d, cache.d.arrays, cache.d.entries`next
    ensures cache.Valid() && Exclusive(Contents(cache.d.Model()))
    ensures fresh(cache.d.arrays - old(cache.d.arrays)) && fresh(cache.d.entries - old(cache.d.entries))
    ensures item != null <==> sid != []
    ensures Items(Contents(cache.d.Model())) == old(Items(m)) + (if item != null then {item} else {})
    ensures Bodies(Contents(cache.d.Model())) == if item != null then old(Bodies(m))[sid := empty] else old(Bodies(m))
    ensures Heads(Contents(cache.d.Model())) ==
            if item != null then old(Heads(m))[sid := Head(cmd, fd, leftover)] else old(Heads(m))
    ensures item != null ==>
              && sid in Contents(cache.d.Model()) && Contents(cache.d.Model())[sid].val == item && fresh(item)
  {
    hide cache.d.Valid, Contents, Bag, WF, Room, Bodies, Heads, Exclusive, Items;
    cache.d.ModelOk();
    var created := NewItem(cmd, fd, leftover, empty, m);
    var added, e := AddItem(cache, sid, created, m);
    if !added {
      return null;
    }
    ItemAdded(m, sid, e, created);
    item := created;
  }

  lemma ItemChanged(m: map<Key, Entry>, sid: Key, item: MsgCacheValue, bodies: Sessions, heads: map<Key, Head>)
    requires Exclusive(m) && sid in m && m[sid].val == item && bodies.Keys == heads.Keys == m.Keys
    requires forall k | k in m && k != sid ::
               var other := m[k].val as MsgCacheValue; bodies[k] == other.contents && heads[k] == HeadOf(other)
    ensures Bodies(m) == bodies[sid := item.contents] && Heads(m) == heads[sid := HeadOf(item)]
  {
    hide Exclusive, Bodies, Heads, HeadOf;
    HeadKeys(m);
  }

  /** Groups the part into the session's whole in place and notes the time; the other
      sessions' items stay. */
  method GroupFragment(item: MsgCacheValue, comp: Component, part: Body, now: int, ghost m: map<Key, Entry>,
                       ghost sid: Key)
    returns (grouped: bool)
    requires Exclusive(m) && sid in m && m[sid].val == item
    modifies item
    ensures var whole := comp.group(part, old(item.contents));
            && grouped == whole.Some?
            && Bodies(m) == (if whole.None? then old(Bodies(m)) else old(Bodies(m))[sid := whole.value])
            && Heads(m) == if whole.None? then old(Heads(m))
                           else old(Heads(m))[sid := old(HeadOf(item)).(lastOpTime := now)]
  {
    hide Bodies, Heads;
    ghost var bodies, heads := Bodies(m), Heads(m);
    HeadKeys(m);
    var whole := comp.group(part, item.contents);
    if whole.None? {
      return false;
    }
    item.contents := whole.value;
    item.lastOpTime := now;
    ItemChanged(m, sid, item, bodies, heads);
    return true;
  }

  lemma ItemDropped(m: map<Key, Entry>, sid: Key)
    requires Exclusive(m)
    ensures Exclusive(m - {sid}) && Bodies(m - {sid}) == Bodies(m) - {sid} && Heads(m - {sid}) == Heads(m) - {sid}
  {
  }

  /** Takes the session's entry out of the cache. */
  method DropItem(cache: MessageCache, sid: Key, ghost m: map<Key, Entry>)
    requires cache.Valid() && m == Contents(cache.d.Model()) && Exclusive(m)
    modifies cache.d, cache.d.arrays, cache.d.entries`next
    ensures cache.Valid() && cache.d.arrays == old(cache.d.arrays) && cache.d.entries == old(cache.d.entries)
    ensures Exclusive(Contents(cache.d.Model()))
    ensures Bodies(Contents(cache.d.Model())) == old(Bodies(m)) - {sid}
    ensures Heads(Contents(cache.d.Model())) == old(Heads(m)) - {sid}
  {
    hide cache.d.Valid, Contents, Bag, WF, Bodies, Heads;
    cache.d.ModelOk();
    var _ := cache.Del(sid);
    cache.d.ModelOk();
    assert Items(m) == old(Items(m)) && Bodies(m) == old(Bodies(m)) && Heads(m) == old(Heads(m));
    ItemDropped(m, sid);
  }

  ghost function Opened(m: Sessions, sid: Key, packetNum: int, empty: Body): Sessions {
    if sid in m || packetNum != 1 || sid == [] then m else m[sid := empty]
  }

  /** The heads after a packet of session sid: a new item has the head given, and
      a packet that does not fail notes the time in its own item. */
  ghost predicate Noted(before: map<Key, Head>, after: map<Key, Head>, sid: Key, created: Head, failed: bool,
                        now: int)
  {
    forall k | k in after ::
      (k !in before ==> k == sid)
      && var head := if k in before then before[k] else created;
         after[k] == if k == sid && !failed then head.(lastOpTime := now) else head
  }

  lemma NothingNoted(before: map<Key, Head>, sid: Key, created: Head, now: int)
    ensures Noted(before, before, sid, created, true, now)
  {
  }

  lemma OneCreated(before: map<Key, Head>, sid: Key, created: Head, now: int)
    requires sid !in before
    ensures Noted(before, before[sid := created], sid, created, true, now)
  {
  }

  lemma OneNoted(before: map<Key, Head>, sid: Key, created: Head, now: int)
    requires sid in before
    ensures Noted(before, before[sid := before[sid].(lastOpTime := now)], sid, created, false, now)
    ensures Noted(before, before[sid := before[sid].(lastOpTime := now)] - {sid}, sid, created, false, now)
  {
  }

  /** Without success the time does not matter. */
  lemma NotedAnyTime(before: map<Key, Head>, after: map<Key, Head>, sid: Key, created: Head, now: int)
    requires Noted(before, after, sid, created, true, 0)
    ensures Noted(before, after, sid, created, true, now)
  {
  }

  lemma NotedAfterwards(first: map<Key, Head>, second: map<Key, Head>, third: map<Key, Head>, sid: Key, created: Head,
                        any: Head, failed: bool, now: int)
    requires Noted(first, second, sid, created, true, 0) && sid in second
    requires Noted(second, third, sid, any, failed, now)
    ensures Noted(first, third, sid, created, failed, now)
  {
  }

  lemma NothingParsed(m: Sessions, comp: Component, f: Fragment)
    requires f.parsed.None?
    ensures FragmentModel.Step(m, comp, f) == (m, Failed)
  {
  }

  /** The step splits into opening the entry and dealing with the packet. */
  lemma StepOpens(m: Sessions, comp: Component, f: Fragment)
    requires f.parsed.Some?
    ensures var begun := Opened(m, f.sid, f.packetNum, comp.empty);
            if f.sid in begun then FragmentModel.Step(begun, comp, f) == FragmentModel.Step(m, comp, f)
            else begun == m && FragmentModel.Step(m, comp, f) == (m, Failed)
  {
    if f.sid !in m && f.packetNum == 1 && f.sid != [] {
      var begun := m[f.sid := comp.empty];
      var whole := comp.group(f.parsed.value, comp.empty);
      var b := if whole.Some? then whole.value else comp.empty;
      assert begun[f.sid := b] == m[f.sid := b];
    }
  }

  /** The session's item, created on fragment number 1; null when there is none. */
  method FindOrCreate(cache: MessageCache, sid: Key, packetNum: int, cmd: int, fd: int, leftover: int, empty: Body,
                      ghost m: map<Key, Entry>)
    returns (item: MsgCacheValue?)
    requires cache.Valid() && Room(cache.d.Model()) && m == Contents(cache.d.Model()) && Exclusive(m)
    modifies cache.d, cache.d.arrays, cache.d.entries`next
    ensures cache.Valid() && Exclusive(Contents(cache.d.Model()))
    ensures fresh(cache.d.arrays - old(cache.d.arrays)) && fresh(cache.d.entries - old(cache.d.entries))
    ensures fresh(Items(Contents(cache.d.Model())) - old(Items(m)))
    ensures Bodies(Contents(cache.d.Model())) == Opened(old(Bodies(m)), sid, packetNum, empty)
    ensures Noted(old(Heads(m)), Heads(Contents(cache.d.Model())), sid, Head(cmd, fd, leftover), true, 0)
    ensures item != null <==> sid in Contents(cache.d.Model())
    ensures item != null <==> sid in Bodies(Contents(cache.d.Model()))
    ensures item != null ==> Contents(cache.d.Model())[sid].val == item
  {
    hide cache.d.Valid, Contents, Bag, WF, Items, Exclusive, Bodies, Heads, Noted;
    ghost var heads := Heads(m);
    HeadKeys(m);
    item := FindItem(cache, sid, m);
    NothingNoted(heads, sid, Head(cmd, fd, leftover), 0);
    if item == null {
      OneCreated(heads, sid, Head(cmd, fd, leftover), 0);
    }
    if item == null && packetNum == 1 {
      item := CreateItem(cache, sid, cmd, fd, leftover, empty, m);
    }
    cache.d.ModelOk();
    HeadKeys(Contents(cache.d.Model()));
  }

  /** The packet with its session's entry found or made. */
  method GroupAndFinish(cache: MessageCache, item: MsgCacheValue, comp: Component, f: Fragment, now: int,
                        ghost m: map<Key, Entry>)
    returns (out: FragmentModel.Outcome)
    requires cache.Valid() && m == Contents(cache.d.Model()) && Exclusive(m)
    requires f.sid in m && m[f.sid].val == item && f.parsed.Some?
    modifies cache.d, cache.d.arrays, cache.d.entries`next, item
    ensures cache.Valid() && cache.d.arrays == old(cache.d.arrays) && cache.d.entries == old(cache.d.entries)
    ensures Exclusive(Contents(cache.d.Model()))
    ensures (Bodies(Contents(cache.d.Model())), out) == FragmentModel.Step(old(Bodies(m)), comp, f)
    ensures Noted(old(Heads(m)), Heads(Contents(cache.d.Model())), f.sid, old(HeadOf(item)), out == Failed, now)
  {
    hide cache.d.Valid, Contents, Bag, WF, Bodies, Heads, Noted;
    ghost var heads, head := Heads(m), HeadOf(item);
    HeadKeys(m);
    NothingNoted(heads, f.sid, head, now);
    OneNoted(heads, f.sid, head, now);
    cache.d.ModelOk();
    var grouped := GroupFragment(item, comp, f.parsed.value, now, m, f.sid);
    cache.d.ModelOk();
    assert Contents(cache.d.Model()) == m && cache.Valid();
    HeadKeys(m);
    if !grouped {
      assert Bodies(m) == Bodies(m)[f.sid := Bodies(m)[f.sid]];
      return Failed;
    }
    if !f.final {
      return Waiting;
    }
    out := if comp.valid(item.contents) then Handed(item.contents) else Invalid;
    if f.answered {
      DropItem(cache, f.sid, m);
    }
  }

  /** What one packet of a command with fragments does to the cache, and what becomes of it. */
  method SingleOperatorGeneralFlow(cache: MessageCache, comp: Component, f: Fragment, cmd: int, fd: int, now: int,
                                   leftover: int)
    returns (out: FragmentModel.Outcome)
    requires cache.Valid() && Room(cache.d.Model()) && Exclusive(Contents(cache.d.Model()))
    modifies cache.d, cache.d.arrays, cache.d.entries`next, Items(Contents(cache.d.Model()))
    ensures cache.Valid() && Exclusive(Contents(cache.d.Model()))
    ensures fresh(cache.d.arrays - old(cache.d.arrays)) && fresh(cache.d.entries - old(cache.d.entries))
    ensures (Bodies(Contents(cache.d.Model())), out) ==
            FragmentModel.Step(old(Bodies(Contents(cache.d.Model()))), comp, f)
    ensures Noted(old(Heads(Contents(cache.d.Model()))), Heads(Contents(cache.d.Model())), f.sid,
                  Head(cmd, fd, leftover), out == Failed, now)
  {
    hide cache.d.Valid, Contents, Bag, WF, Bodies, Heads, Noted, FragmentModel.Step, Opened;
    cache.d.ModelOk();
    ghost var heads, created := Heads(Contents(cache.d.Model())), Head(cmd, fd, leftover);
    NothingNoted(heads, f.sid, created, now);
    if f.parsed.None? {
      NothingParsed(Bodies(Contents(cache.d.Model())), comp, f);
      return Failed;
    }
    StepOpens(Bodies(Contents(cache.d.Model())), comp, f);
    var item := FindOrCreate(cache, f.sid, f.packetNum, cmd, fd, leftover, comp.empty, Contents(cache.d.Model()));
    cache.d.ModelOk();
    NotedAnyTime(heads, Heads(Contents(cache.d.Model())), f.sid, created, now);
    if item == null {
      return Failed;
    }
    ghost var begun, head := Heads(Contents(cache.d.Model())), HeadOf(item);
    HeadKeys(Contents(cache.d.Model()));
    out := GroupAndFinish(cache, item, comp, f, now, Contents(cache.d.Model()));
    cache.d.ModelOk();
    NotedAfterwards(heads, begun, Heads(Contents(cache.d.Model())), f.sid, created, head, out == Failed, now);
  }
}
