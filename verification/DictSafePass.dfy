/** A pass of a safe iterator over a dictionary that is looked up, added to and
    deleted from while the pass runs. */
module DictSafePass {
  import opened Bytes
  import opened HashArithmetic
  import opened DictModel
  import opened DictOps
  import opened DictIteration

  datatype Pass = Pass(s: State, it: It, seen: seq<Entry>) {
    predicate Running() {
      it.entry.Some?
    }
  }

  datatype PassEvent =
    | NextEvent
    | FindEvent(key: Key)
    | AddEvent(e: Entry, canResize: bool)
    | DeleteEvent(key: Key)

  /** Entries the pass has yet to return. */
  ghost function Left(p: Pass): seq<Entry>
    requires p.Running() ==> ItOk(p.s, p.it)
  {
    if p.Running() then Pending(p.s, p.it) else []
  }

  ghost predicate PassOk(p: Pass) {
    && WF(p.s) && p.s.iterators != 0 && p.it.Started()
    && (p.Running() ==> ItOk(p.s, p.it))
    && (forall x | x in Left(p) :: x !in p.seen)
    && NoDup(p.seen)
    && (p.Running() ==> p.it.entry.value in p.seen)
  }

  /** The table an insertion grows into stays within a signed int. */
  ghost predicate GrowsSigned(s: State, canResize: bool) {
    Room(s) && (NeedsGrowth(s, canResize) ==> NextPowerOf(GrowthSize(s)) < MAX_BUCKETS)
  }

  /** The key of the saved successor. */
  predicate IsSuccessor(it: It, key: Key) {
    it.entry.Some? && it.nextEntry.Some? && it.nextEntry.value.key == key
  }

  /** Entries are new objects, and anything may be deleted but the saved successor. */
  ghost predicate PassLegal(p: Pass, ev: PassEvent) {
    match ev
    case NextEvent => p.Running()
    case FindEvent(_) => true
    case AddEvent(e, canResize) => p.Running() && GrowsSigned(p.s, canResize) && e !in Bag(p.s) && e !in p.seen
    case DeleteEvent(key) => p.Running() && !IsSuccessor(p.it, key)
  }

  ghost function AfterNext(p: Pass): Pass
    requires ItOk(p.s, p.it)
  {
    var r := Next(p.s, p.it);
    Pass(r.0, r.1, if r.2.Some? then p.seen + [r.2.value] else p.seen)
  }

  ghost function Move(p: Pass, ev: PassEvent): Pass
    requires PassOk(p) && PassLegal(p, ev)
  {
    match ev
    case NextEvent => AfterNext(p)
    case FindEvent(key) => p.(s := Find(p.s, key))
    case AddEvent(e, canResize) => p.(s := Add(p.s, e, canResize))
    case DeleteEvent(key) => p.(s := Delete(p.s, key))
  }

  // ----- adding during a pass -----

  lemma {:induction false} PushRest(t: Buckets, e: Entry, i: nat)
    requires t != [] && i <= |t|
    ensures multiset(Rest(Push(t, e), i)) ==
            multiset(Rest(t, i)) + if Slot(e.key, |t|) >= i then multiset{e} else multiset{}
  {
    var j := Slot(e.key, |t|);
    if j >= i {
      assert Push(t, e)[i..] == t[i..][j - i := [e] + t[j]];
      FlatUpdate(t[i..], j - i, [e] + t[j]);
      assert multiset([e] + t[j]) == multiset{e} + multiset(t[j]);
    } else {
      assert Push(t, e)[i..] == t[i..];
    }
  }

  lemma PushSuffix(t: Buckets, e: Entry, i: nat, n: Entry)
    requires t != [] && i < |t| && e != n && n in t[i]
    ensures n in Push(t, e)[i] && Suffix(Push(t, e)[i], n) == Suffix(t[i], n)
  {
    if i == Slot(e.key, |t|) {
      assert ([e] + t[i])[1..] == t[i];
    }
  }

  ghost predicate Grown(b: seq<Entry>, a: seq<Entry>, e: Entry) {
    multiset(b) == multiset(a) || multiset(b) == multiset(a) + multiset{e}
  }

  lemma InsertSaved(s: State, it: It, e: Entry)
    requires WF(s) && ItOk(s, it) && it.entry.Some? && e !in Bag(s)
    ensures ItOk(Insert(s, e), it)
    ensures Saved(Insert(s, e), it) == Saved(s, it)
  {
    WFTables(s);
    hide WF, Bag;
    if it.nextEntry.Some? {
      InTableInBag(s, it.table, it.index, it.nextEntry.value);
      PushSuffix(TableOf(s, it.table), e, it.index, it.nextEntry.value);
    }
  }

  lemma InsertAfter(s: State, table: nat, index: nat, e: Entry)
    requires s.t0 != [] && (s.Rehashing() <==> s.t1 != []) && table <= 1 && (table == 1 ==> s.Rehashing())
    requires index < |TableOf(s, table)|
    ensures Grown(After(Insert(s, e), table, index), After(s, table, index), e)
  {
    hide Push, Flat;
    if !s.Rehashing() {
      PushRest(s.t0, e, index + 1);
    } else if table == 0 {
      PushRest(s.t1, e, 0);
      assert Push(s.t1, e)[0..] == Push(s.t1, e) && s.t1[0..] == s.t1;
    } else {
      PushRest(s.t1, e, index + 1);
    }
  }

  lemma InsertPending(s: State, it: It, e: Entry)
    requires WF(s) && ItOk(s, it) && it.entry.Some? && e !in Bag(s)
    ensures ItOk(Insert(s, e), it)
    ensures Grown(Pending(Insert(s, e), it), Pending(s, it), e)
  {
    hide WF, Bag, After, Saved, Insert, Grown;
    WFTables(s);
    OldTableThere(s);
    InsertSaved(s, it, e);
    InsertAfter(s, it.table, it.index, e);
    GrownBehind(Saved(s, it), After(Insert(s, e), it.table, it.index), After(s, it.table, it.index), e);
  }

  lemma OldTableThere(s: State)
    requires WF(s)
    ensures s.Rehashing() ==> s.t0 != []
  {
  }

  lemma GrownBehind(p: seq<Entry>, b: seq<Entry>, a: seq<Entry>, e: Entry)
    requires Grown(b, a, e)
    ensures Grown(p + b, p + a, e)
  {
  }

  lemma ExpandPending(s: State, it: It, size: nat)
    requires WF(s) && ItOk(s, it) && it.entry.Some?
    requires CanExpand(s, size) && NextPowerOf(size) < MAX_BUCKETS
    ensures ItOk(Expand(s, size), it)
    ensures Pending(Expand(s, size), it) == Pending(s, it)
  {
    var r := Expand(s, size);
    FlatEmpty(r.t1);
    hide WF, Bag;
    assert Saved(r, it) == Saved(s, it);
    assert After(r, it.table, it.index) == After(s, it.table, it.index);
  }

  /** Up to 2^29 entries growth never reaches 2^31 buckets. */
  lemma GrowthStaysSigned(s: State, canResize: bool)
    requires WF(s) && |Bag(s)| <= 0x2000_0000
    ensures GrowsSigned(s, canResize)
  {
    if NeedsGrowth(s, canResize) {
      Pow2Max();
      assert IsPow2(MAX_BUCKETS / 2);
      DoubleToIsLeast(INITIAL_SIZE, GrowthSize(s), MAX_BUCKETS / 2);
    }
  }

  lemma PreparePending(s: State, it: It, canResize: bool)
    requires WF(s) && ItOk(s, it) && it.entry.Some? && s.iterators != 0 && GrowsSigned(s, canResize)
    ensures ItOk(Prepared(s, canResize), it)
    ensures Pending(Prepared(s, canResize), it) == Pending(s, it)
  {
    hide WF, Bag, ItOk, Pending, Expand;
    if NeedsGrowth(s, canResize) {
      GrowthFits(s, canResize);
      ExpandPending(s, it, GrowthSize(s));
    }
  }

  lemma AddPending(s: State, it: It, e: Entry, canResize: bool)
    requires WF(s) && ItOk(s, it) && it.entry.Some? && s.iterators != 0 && GrowsSigned(s, canResize)
    requires e !in Bag(s)
    ensures ItOk(Add(s, e, canResize), it)
    ensures Grown(Pending(Add(s, e, canResize), it), Pending(s, it), e)
  {
    hide WF, Bag, ItOk, Pending, Prepared, Insert;
    PreparePending(s, it, canResize);
    InsertPending(Prepared(s, canResize), it, e);
  }

  // ----- deleting the entry just returned -----

  lemma {:induction false} UnlinkSuffix(c: Chain, key: Key, n: Entry)
    requires n in c && FindIn(c, key).Some? && FindIn(c, key).value !in Suffix(c, n)
    ensures n in Unlink(c, key) && Suffix(Unlink(c, key), n) == Suffix(c, n)
  {
    if c[0] != n {
      if c[0].key != key {
        UnlinkSuffix(c[1..], key, n);
      } else {
        assert Unlink(c, key) == c[1..];
      }
    }
  }

  lemma UnlinkRest(t: Buckets, key: Key, i: nat)
    requires t != [] && i <= |t| && FindInTable(t, key).Some? && FindInTable(t, key).value !in Rest(t, i)
    ensures Rest(UnlinkInTable(t, key), i) == Rest(t, i)
  {
    var j := Slot(key, |t|);
    if j >= i {
      assert t[i..][j - i] == t[j];
      InFlat(t[i..], FindInTable(t, key).value);
    } else {
      assert UnlinkInTable(t, key)[i..] == t[i..];
    }
  }

  /** Removing an entry that is not pending leaves everything pending as it was. */
  lemma RemoveSaved(s: State, it: It, key: Key)
    requires WF(s) && ItOk(s, it) && it.entry.Some?
    requires Lookup(s, key).Some? && Lookup(s, key).value !in Saved(s, it)
    ensures ItOk(Remove(s, key), it)
    ensures Saved(Remove(s, key), it) == Saved(s, it)
  {
    hide WF, Flat, Bag, Suffix;
    WFTables(s);
    var t := TableOf(s, it.table);
    if it.nextEntry.Some? && it.index == Slot(key, |t|) && FindInTable(t, key).Some? {
      if it.table == 0 || FindInTable(s.t0, key).None? {
        UnlinkSuffix(t[it.index], key, it.nextEntry.value);
      }
    }
  }

  lemma RemoveAfter(s: State, table: nat, index: nat, key: Key)
    requires s.t0 != [] && (s.Rehashing() <==> s.t1 != []) && table <= 1 && (table == 1 ==> s.Rehashing())
    requires index < |TableOf(s, table)|
    requires Lookup(s, key).Some? && Lookup(s, key).value !in After(s, table, index)
    ensures After(Remove(s, key), table, index) == After(s, table, index)
  {
    if FindInTable(s.t0, key).Some? {
      if table == 0 {
        UnlinkRest(s.t0, key, index + 1);
      }
    } else if table == 0 {
      assert s.t1[0..] == s.t1 && UnlinkInTable(s.t1, key)[0..] == UnlinkInTable(s.t1, key);
      UnlinkRest(s.t1, key, 0);
    } else {
      UnlinkRest(s.t1, key, index + 1);
    }
  }

  lemma RemovePending(s: State, it: It, key: Key)
    requires WF(s) && ItOk(s, it) && it.entry.Some?
    requires Lookup(s, key).Some? && Lookup(s, key).value !in Pending(s, it)
    ensures ItOk(Remove(s, key), it)
    ensures Pending(Remove(s, key), it) == Pending(s, it)
  {
    WFTables(s);
    hide WF, Saved, After, Remove, Lookup;
    RemoveSaved(s, it, key);
    RemoveAfter(s, it.table, it.index, key);
  }

  // ----- deleting any other entry than the saved successor -----

  lemma MinusAbsent(a: seq<Entry>, x: Entry)
    requires x !in a
    ensures multiset(a) - multiset{x} == multiset(a)
  {
    assert x !in multiset(a);
  }

  lemma NoDupTail(c: Chain)
    requires NoDup(c) && c != []
    ensures NoDup(c[1..]) && c[0] !in multiset(c[1..])
  {
    assert c[0] !in c[1..];
  }

  lemma {:induction false} UnlinkSuffixBag(c: Chain, key: Key, n: Entry)
    requires n in c && NoDup(c) && FindIn(c, key).Some? && FindIn(c, key).value != n
    ensures n in Unlink(c, key)
    ensures multiset(Suffix(Unlink(c, key), n)) == multiset(Suffix(c, n)) - multiset{FindIn(c, key).value}
  {
    hide NoDup;
    if c[0] != n {
      NoDupTail(c);
      if c[0].key != key {
        UnlinkSuffixBag(c[1..], key, n);
      } else {
        assert Unlink(c, key) == c[1..];
        SuffixInChain(c[1..], n);
        NotAmong(multiset(c[1..]), Suffix(c[1..], n), c[0]);
        MinusAbsent(Suffix(c[1..], n), c[0]);
      }
    } else {
      assert Suffix(c, n) == c && Suffix(Unlink(c, key), n) == Unlink(c, key);
    }
  }

  lemma NotAmong(b: multiset<Entry>, c: seq<Entry>, e: Entry)
    requires multiset(c) <= b && e !in b
    ensures e !in c
  {
    assert e !in multiset(c);
  }

  lemma UnlinkRestBag(t: Buckets, key: Key, i: nat)
    requires t != [] && Placed(t) && i <= |t| && FindInTable(t, key).Some?
    ensures multiset(Rest(UnlinkInTable(t, key), i)) == multiset(Rest(t, i)) - multiset{FindInTable(t, key).value}
  {
    hide Flat, Unlink, FindIn, Slot, Placed;
    var j, x := Slot(key, |t|), FindInTable(t, key).value;
    var u := t[i..];
    var c := Unlink(t[j], key);
    if j >= i {
      assert u[j - i] == t[j];
      FlatUpdate(u, j - i, c);
      assert UnlinkInTable(t, key)[i..] == u[j - i := c];
      BagSwap(multiset(Flat(u)), multiset(t[j]), multiset(c), x);
    } else {
      assert UnlinkInTable(t, key)[i..] == u;
      NotInRest(t, i, x);
      MinusAbsent(Flat(u), x);
    }
  }

  lemma NotInRest(t: Buckets, i: nat, x: Entry)
    requires Placed(t) && i <= |t| && t != [] && Slot(x.key, |t|) < i
    ensures x !in Rest(t, i)
  {
    InFlat(t[i..], x);
    forall k | 0 <= k < |t[i..]|
      ensures x !in t[i..][k]
    {
      assert t[i..][k] == t[k + i];
    }
  }

  lemma RemoveSavedBag(s: State, it: It, key: Key)
    requires WF(s) && ItOk(s, it) && it.entry.Some? && !IsSuccessor(it, key) && Lookup(s, key).Some?
    ensures ItOk(Remove(s, key), it)
    ensures multiset(Saved(Remove(s, key), it)) == multiset(Saved(s, it)) - multiset{Lookup(s, key).value}
  {
    var x := Lookup(s, key).value;
    WFTables(s);
    if x !in Saved(s, it) {
      RemoveSaved(s, it, key);
      MinusAbsent(Saved(s, it), x);
    } else {
      RemoveFromSaved(s, it, key);
    }
  }

  lemma RemoveFromSaved(s: State, it: It, key: Key)
    requires WF(s) && ItOk(s, it) && it.entry.Some? && !IsSuccessor(it, key) && Lookup(s, key).Some?
    requires Lookup(s, key).value in Saved(s, it)
    ensures ItOk(Remove(s, key), it)
    ensures multiset(Saved(Remove(s, key), it)) == multiset(Saved(s, it)) - multiset{Lookup(s, key).value}
  {
    hide WF, Flat, Bag, Suffix, NoDup, Lookup, Slot, FindIn, Unlink, Remove, FindInTable;
    WFTables(s);
    var t, n, x := TableOf(s, it.table), it.nextEntry.value, Lookup(s, key).value;
    SuffixInChain(t[it.index], n);
    InChain(t[it.index], Suffix(t[it.index], n), x);
    ChainsNoDup(s, it.table, it.index);
    FoundWhereItIs(s, it.table, it.index, key);
    HereBecauseOk(s, it);
    RemovesAt(s, it.table, it.index, key);
    UnlinkSuffixBag(t[it.index], key, n);
  }

  lemma RemovesAt(s: State, table: nat, i: nat, key: Key)
    requires WF(s) && table <= 1 && i < |TableOf(s, table)| && s.t0 != [] && (table == 1 ==> s.Rehashing())
    requires i == Slot(key, |TableOf(s, table)|) && FindInTable(TableOf(s, table), key).Some?
    requires table == 1 ==> FindInTable(s.t0, key).None?
    ensures var r := Remove(s, key);
            && |r.t0| == |s.t0| && |r.t1| == |s.t1| && r.Rehashing() == s.Rehashing()
            && TableOf(r, table)[i] == Unlink(TableOf(s, table)[i], key)
            && FindIn(TableOf(s, table)[i], key) == FindInTable(TableOf(s, table), key)
  {
    hide WF, FindIn, Unlink, Slot;
  }

  lemma InChain(c: seq<Entry>, a: seq<Entry>, x: Entry)
    requires multiset(a) <= multiset(c) && x in a
    ensures x in c
  {
    assert x in multiset(a);
    assert x in multiset(c);
  }

  lemma HereBecauseOk(s: State, it: It)
    requires WF(s) && ItOk(s, it) && it.entry.Some?
    ensures s.t0 != []
  {
    OldTableThere(s);
  }

  /** Lookup finds an entry in the table whose bucket has it. */
  lemma FoundWhereItIs(s: State, table: nat, i: nat, key: Key)
    requires WF(s) && table <= 1 && i < |TableOf(s, table)|
    requires Lookup(s, key).Some? && Lookup(s, key).value in TableOf(s, table)[i]
    ensures i == Slot(key, |TableOf(s, table)|) && FindInTable(TableOf(s, table), key) == Lookup(s, key)
    ensures table == 1 ==> FindInTable(s.t0, key).None?
  {
    var x := Lookup(s, key).value;
    InFlat(TableOf(s, table), x);
    TablesDisjoint(s, x);
    if FindInTable(s.t0, key).Some? {
      InSlot(s.t0, x);
    } else {
      InSlot(s.t0, x);
    }
  }

  lemma RemoveAfterBag(s: State, table: nat, index: nat, key: Key)
    requires WF(s) && table <= 1 && (table == 1 ==> s.Rehashing()) && index < |TableOf(s, table)|
    requires s.t0 != [] && Lookup(s, key).Some?
    ensures multiset(After(Remove(s, key), table, index)) ==
            multiset(After(s, table, index)) - multiset{Lookup(s, key).value}
  {
    var x := Lookup(s, key).value;
    WFTables(s);
    if x !in After(s, table, index) {
      hide Lookup;
      RemoveAfter(s, table, index, key);
      MinusAbsent(After(s, table, index), x);
    } else {
      RemoveFromAfter(s, table, index, key);
    }
  }

  lemma RemoveFromAfter(s: State, table: nat, index: nat, key: Key)
    requires WF(s) && table <= 1 && (table == 1 ==> s.Rehashing()) && index < |TableOf(s, table)|
    requires s.t0 != [] && (s.Rehashing() <==> s.t1 != [])
    requires Lookup(s, key).Some? && Lookup(s, key).value in After(s, table, index)
    ensures multiset(After(Remove(s, key), table, index)) ==
            multiset(After(s, table, index)) - multiset{Lookup(s, key).value}
  {
    var x := Lookup(s, key).value;
    AfterParts(s, table, index, x);
    TablesDisjoint(s, x);
    InSlot(s.t0, x);
    InSlot(s.t1, x);
    hide Bag, Slot, Rest, UnlinkInTable, Unique, WF, FindInTable, After, Flat, Placed;
    WFPlaced(s);
    if FindInTable(s.t0, key).Some? {
      FromOld(s, table, index, key);
    } else {
      FromNew(s, table, index, key);
    }
  }

  lemma WFPlaced(s: State)
    requires WF(s)
    ensures Placed(s.t0) && Placed(s.t1)
  {
  }

  lemma FromOld(s: State, table: nat, index: nat, key: Key)
    requires Placed(s.t0) && (s.Rehashing() <==> s.t1 != []) && s.t0 != [] && FindInTable(s.t0, key).Some?
    requires table == 0 && index < |s.t0| && FindInTable(s.t0, key).value !in Flat(s.t1)
    ensures multiset(After(Remove(s, key), table, index)) ==
            multiset(After(s, table, index)) - multiset{FindInTable(s.t0, key).value}
  {
    hide Rest, FindInTable, UnlinkInTable, Flat, Placed;
    UnlinkRestBag(s.t0, key, index + 1);
    if s.Rehashing() {
      MinusBoth(Rest(s.t0, index + 1), Rest(UnlinkInTable(s.t0, key), index + 1), Flat(s.t1),
                FindInTable(s.t0, key).value);
    } else {
      NothingMore(s, index);
      NothingMore(Remove(s, key), index);
    }
  }

  lemma NothingMore(s: State, index: int)
    requires !s.Rehashing() && -1 <= index <= |s.t0|
    ensures After(s, 0, index) == Rest(s.t0, index + 1)
  {
  }

  lemma FromNew(s: State, table: nat, index: nat, key: Key)
    requires Placed(s.t1) && s.Rehashing() && s.t1 != [] && s.t0 != []
    requires FindInTable(s.t0, key).None? && FindInTable(s.t1, key).Some?
    requires table <= 1 && index < |TableOf(s, table)|
    requires table == 0 ==> FindInTable(s.t1, key).value !in Rest(s.t0, index + 1)
    ensures multiset(After(Remove(s, key), table, index)) ==
            multiset(After(s, table, index)) - multiset{FindInTable(s.t1, key).value}
  {
    hide Rest, FindInTable, UnlinkInTable, Flat, Placed;
    if table == 0 {
      RestIsFlat(s.t1);
      RestIsFlat(UnlinkInTable(s.t1, key));
      UnlinkRestBag(s.t1, key, 0);
      MinusLater(Rest(s.t0, index + 1), Flat(s.t1), Flat(UnlinkInTable(s.t1, key)), FindInTable(s.t1, key).value);
    } else {
      UnlinkRestBag(s.t1, key, index + 1);
      assert After(s, 1, index) == Rest(s.t1, index + 1);
    }
  }

  lemma RestIsFlat(t: Buckets)
    ensures Rest(t, 0) == Flat(t)
  {
    assert t[0..] == t;
  }

  lemma MinusBoth(a: seq<Entry>, a': seq<Entry>, b: seq<Entry>, x: Entry)
    requires multiset(a') == multiset(a) - multiset{x} && x !in b
    ensures multiset(a' + b) == multiset(a + b) - multiset{x}
  {
    assert x !in multiset(b);
  }

  lemma MinusLater(a: seq<Entry>, b: seq<Entry>, b': seq<Entry>, x: Entry)
    requires multiset(b') == multiset(b) - multiset{x} && x !in a
    ensures multiset(a + b') == multiset(a + b) - multiset{x}
  {
    assert x !in multiset(a);
  }

  lemma AfterParts(s: State, table: nat, index: nat, x: Entry)
    requires table <= 1 && index < |TableOf(s, table)|
    ensures x in Rest(TableOf(s, table), index + 1) ==> x in Flat(TableOf(s, table))
  {
    var t := TableOf(s, table);
    FlatSplit(t, index);
  }

  /** Any other entry than the saved successor may go: what is pending loses at most that one. */
  lemma RemoveOther(s: State, it: It, key: Key)
    requires WF(s) && ItOk(s, it) && it.entry.Some? && !IsSuccessor(it, key) && Lookup(s, key).Some?
    requires s.t0 != []
    ensures ItOk(Remove(s, key), it)
    ensures multiset(Pending(Remove(s, key), it)) == multiset(Pending(s, it)) - multiset{Lookup(s, key).value}
  {
    PendingPresent(s, it);
    WFBag(s);
    hide WF, Saved, After, Remove, Lookup, Bag, NoDup;
    RemoveSavedBag(s, it, key);
    RemoveAfterBag(s, it.table, it.index, key);
    MinusOnce(multiset(Saved(s, it)), multiset(After(s, it.table, it.index)), Lookup(s, key).value, Bag(s));
  }

  lemma MinusOnce(a: multiset<Entry>, b: multiset<Entry>, x: Entry, all: multiset<Entry>)
    requires a + b <= all && (x in all ==> all[x] == 1)
    ensures (a - multiset{x}) + (b - multiset{x}) == (a + b) - multiset{x}
  {
  }

  /** A deletion leaves the iterator usable if and only if it is not that of the saved successor. */
  lemma OnlySuccessorMatters(s: State, it: It, key: Key)
    requires WF(s) && ItOk(s, it)
    ensures Alive(Delete(s, key), it) <==> !IsSuccessor(it, key)
  {
    hide WF, Bag, Lookup, Delete;
    OkIsAlive(s, it);
    if it.entry.Some? && it.nextEntry.Some? {
      StaysUnlessMeant(s, it.nextEntry.value, key);
    }
  }

  lemma StaysUnlessMeant(s: State, x: Entry, key: Key)
    requires WF(s) && x in Bag(s)
    ensures x in Bag(Delete(s, key)) <==> x.key != key
  {
    hide WF, Bag, Lookup, Delete;
    LookupIsMembership(s, key);
    WFBag(s);
    LookupFinds(s, x);
  }

  // ----- tables of 2^31 buckets -----

  /** In a settled dictionary the first call finds nothing exactly if there is nothing, or
      if the number of buckets is negative as a signed int. */
  lemma BiggestTableIsSkipped(s: State, safe: bool)
    requires WF(s) && !s.Rehashing()
    ensures Next(s, NewIt(safe)).2.None? <==> Bag(s) == multiset{} || |s.t0| == 0x8000_0000
  {
    if |s.t0| < MAX_BUCKETS {
      FreshItOk(s, safe);
      NextTakes(s, NewIt(safe));
      PendingAtStart(s, safe);
    }
  }

  /** Of a second table of that size no bucket behind the first is visited. */
  lemma BiggestTableIsLeft(s: State, it: It)
    requires WF(s) && |s.t1| == 0x8000_0000 && it.table == 1 && 0 <= it.index
    requires it.entry.Some? ==> it.nextEntry.None?
    ensures Next(s, it).2.None?
  {
  }

  // ----- the pass -----

  lemma {:induction false} SuffixInChain(c: Chain, n: Entry)
    ensures multiset(Suffix(c, n)) <= multiset(c)
  {
    if c != [] && c[0] != n {
      SuffixInChain(c[1..], n);
      assert c == [c[0]] + c[1..];
      assert multiset(c) == multiset{c[0]} + multiset(c[1..]);
    }
  }

  lemma RestInFlat(t: Buckets, i: nat)
    requires i < |t|
    ensures multiset(t[i]) + multiset(Rest(t, i + 1)) <= multiset(Flat(t))
  {
    FlatSplit(t, i);
  }

  /** Everything pending is in the dictionary, once. */
  lemma PendingPresent(s: State, it: It)
    requires WF(s) && ItOk(s, it) && it.entry.Some?
    ensures multiset(Pending(s, it)) <= Bag(s)
    ensures NoDup(Pending(s, it))
  {
    var t := TableOf(s, it.table);
    RestInFlat(t, it.index);
    if it.nextEntry.Some? {
      SuffixInChain(t[it.index], it.nextEntry.value);
    }
    WFTables(s);
    WFBag(s);
    hide WF, Rest, Suffix;
    assert multiset(Saved(s, it)) <= multiset(t[it.index]);
    assert multiset(Pending(s, it)) == multiset(Saved(s, it)) + multiset(After(s, it.table, it.index));
    InBagOnce(Bag(s), Pending(s, it));
  }

  lemma WFBag(s: State)
    requires WF(s)
    ensures forall x | x in Bag(s) :: Bag(s)[x] == 1
  {
  }

  lemma InBagOnce(b: multiset<Entry>, c: seq<Entry>)
    requires multiset(c) <= b && forall x | x in b :: b[x] == 1
    ensures NoDup(c)
  {
    forall x | x in c
      ensures multiset(c)[x] == 1
    {
      assert x in multiset(c);
    }
    BagNoDup(c);
  }

  lemma FrozenStep(s: State, key: Key)
    requires WF(s) && s.iterators != 0
    ensures Find(s, key) == s
    ensures s.t0 != [] ==> Delete(s, key) == Remove(s, key)
  {
  }

  /** What a deletion takes from what is pending. */
  lemma DeletePending(s: State, it: It, key: Key)
    requires WF(s) && s.iterators != 0 && ItOk(s, it) && it.entry.Some? && !IsSuccessor(it, key)
    ensures var r := Delete(s, key);
            && ItOk(r, it) && multiset(Pending(r, it)) <= multiset(Pending(s, it))
            && forall x | x in Bag(r) :: multiset(Pending(r, it))[x] == multiset(Pending(s, it))[x]
  {
    FrozenStep(s, key);
    HereBecauseOk(s, it);
    RemoveKeeps(s, key);
    hide WF, Bag, Pending, Lookup, Remove, ItOk, Delete, IsSuccessor, Find;
    if Lookup(s, key).Some? {
      RemoveOther(s, it, key);
      GoneWhenDeleted(s, key);
      OnlyThatOne(multiset(Pending(s, it)), multiset(Pending(Delete(s, key), it)), Bag(Delete(s, key)),
                  Lookup(s, key).value);
    }
  }

  lemma OnlyThatOne(a: multiset<Entry>, b: multiset<Entry>, r: multiset<Entry>, x: Entry)
    requires b == a - multiset{x} && x !in r
    ensures b <= a && forall y | y in r :: b[y] == a[y]
  {
  }

  lemma GoneWhenDeleted(s: State, key: Key)
    requires WF(s) && Lookup(s, key).Some?
    ensures Lookup(s, key).value !in Bag(Delete(s, key))
  {
    LookupIsMembership(s, key);
    WFBag(s);
  }

  lemma NextPass(p: Pass)
    requires WF(p.s) && ItOk(p.s, p.it)
    ensures var r := AfterNext(p);
            && WF(r.s) && Bag(r.s) == Bag(p.s) && r.it.Started()
            && r.s.iterators == p.s.iterators + (if p.it.safe && !p.it.Started() then 1 else 0)
            && (r.Running() ==> ItOk(r.s, r.it) && r.it.entry.value in r.seen)
            && r.seen + Left(r) == p.seen + Pending(p.s, p.it)
  {
    hide WF, ItOk, Pending, Next;
    NextTakes(p.s, p.it);
    CountedKeeps(p.s, p.it);
  }

  lemma NoDupAppend(c: seq<Entry>, d: seq<Entry>)
    requires NoDup(c) && NoDup(d) && forall x | x in d :: x !in c
    ensures NoDup(c + d)
  {
    var e := c + d;
    forall j, k | 0 <= j < k < |e|
      ensures e[j] != e[k]
    {
      assert k >= |c| ==> e[k] in d;
      assert j < |c| ==> e[j] in c;
    }
  }

  lemma NoDupSplit(c: seq<Entry>, d: seq<Entry>)
    requires NoDup(c + d)
    ensures NoDup(c) && forall x | x in d :: x !in c
  {
    assert forall i | 0 <= i < |c| :: (c + d)[i] == c[i];
    assert forall i | 0 <= i < |d| :: (c + d)[|c| + i] == d[i];
  }

  lemma NextKeeps(p: Pass)
    requires PassOk(p) && p.Running()
    ensures PassOk(AfterNext(p))
    ensures AfterNext(p).seen + Left(AfterNext(p)) == p.seen + Left(p)
  {
    NextPass(p);
    PendingPresent(p.s, p.it);
    hide WF, Pending, ItOk, AfterNext;
    NoDupAppend(p.seen, Left(p));
    NoDupSplit(AfterNext(p).seen, Left(AfterNext(p)));
  }

  lemma AddKeeps(p: Pass, e: Entry, canResize: bool)
    requires PassOk(p) && PassLegal(p, AddEvent(e, canResize))
    ensures PassOk(Move(p, AddEvent(e, canResize)))
    ensures Grown(Left(Move(p, AddEvent(e, canResize))), Left(p), e)
  {
    hide WF, Bag, Pending, ItOk, Add, NoDup;
    AddPending(p.s, p.it, e, canResize);
    var l, r := Left(p), Left(Move(p, AddEvent(e, canResize)));
    forall x | x in r
      ensures x !in p.seen
    {
      assert x in multiset(r);
    }
  }

  lemma DeleteKeeps(p: Pass, key: Key)
    requires PassOk(p) && PassLegal(p, DeleteEvent(key))
    ensures var r := Move(p, DeleteEvent(key));
            PassOk(r) && forall x | x in Bag(r.s) :: multiset(Left(r))[x] == multiset(Left(p))[x]
  {
    hide Bag, Pending, ItOk, Delete, NoDup;
    DeletePending(p.s, p.it, key);
    var r := Move(p, DeleteEvent(key));
    forall x | x in Left(r)
      ensures x in Left(p)
    {
      assert x in multiset(Left(r));
      assert x in multiset(Left(p));
    }
  }

  ghost function Count(p: Pass, x: Entry): nat
    requires PassOk(p)
  {
    multiset(p.seen)[x] + multiset(Left(p))[x]
  }

  lemma CountAppend(c: seq<Entry>, d: seq<Entry>, x: Entry)
    ensures multiset(c + d)[x] == multiset(c)[x] + multiset(d)[x]
  {
    assert multiset(c + d) == multiset(c) + multiset(d);
  }

  lemma NextTracks(p: Pass, x: Entry)
    requires PassOk(p) && p.Running()
    ensures PassOk(AfterNext(p)) && Count(AfterNext(p), x) == Count(p, x)
  {
    hide WF, NoDup, AfterNext, Pending, ItOk;
    NextKeeps(p);
    CountAppend(p.seen, Left(p), x);
    CountAppend(AfterNext(p).seen, Left(AfterNext(p)), x);
  }

  lemma MoveKeeps(p: Pass, ev: PassEvent)
    requires PassOk(p) && PassLegal(p, ev)
    ensures PassOk(Move(p, ev))
  {
    hide PassOk, Left, Bag, AfterNext, Add, Delete;
    match ev
    case NextEvent => NextKeeps(p);
    case FindEvent(key) =>
      PassFacts(p);
      FrozenStep(p.s, key);
    case AddEvent(e, canResize) => AddKeeps(p, e, canResize);
    case DeleteEvent(key) => DeleteKeeps(p, key);
  }

  /** No event loses or repeats an entry that stays in the dictionary. */
  lemma MoveTracks(p: Pass, ev: PassEvent, x: Entry)
    requires PassOk(p) && PassLegal(p, ev) && x in Bag(p.s) && x in Bag(Move(p, ev).s)
    ensures PassOk(Move(p, ev)) && Count(Move(p, ev), x) == Count(p, x)
  {
    hide PassOk, Left, Bag, AfterNext, Add, Delete;
    match ev
    case NextEvent => NextTracks(p, x);
    case FindEvent(key) =>
      PassFacts(p);
      FrozenStep(p.s, key);
    case AddEvent(e, canResize) => AddKeeps(p, e, canResize);
    case DeleteEvent(key) => DeleteKeeps(p, key);
  }

  lemma PassFacts(p: Pass)
    requires PassOk(p)
    ensures WF(p.s) && p.s.iterators != 0
  {
  }

  ghost function PassStep(p: Pass, ev: PassEvent): (r: Pass)
    requires PassOk(p) && PassLegal(p, ev)
    ensures PassOk(r)
    ensures forall x | x in Bag(p.s) && x in Bag(r.s) :: Count(r, x) == Count(p, x)
  {
    MovesTrack(p, ev);
    Move(p, ev)
  }

  lemma MovesTrack(p: Pass, ev: PassEvent)
    requires PassOk(p) && PassLegal(p, ev)
    ensures PassOk(Move(p, ev))
    ensures forall x | x in Bag(p.s) && x in Bag(Move(p, ev).s) :: Count(Move(p, ev), x) == Count(p, x)
  {
    hide PassOk, Move, Count, Bag;
    MoveKeeps(p, ev);
    forall x | x in Bag(p.s) && x in Bag(Move(p, ev).s)
      ensures Count(Move(p, ev), x) == Count(p, x)
    {
      MoveTracks(p, ev, x);
    }
  }

  ghost predicate PassRunLegal(p: Pass, evs: seq<PassEvent>)
    requires PassOk(p)
    decreases |evs|
  {
    evs == [] || (PassLegal(p, evs[0]) && PassRunLegal(PassStep(p, evs[0]), evs[1..]))
  }

  ghost function PassRun(p: Pass, evs: seq<PassEvent>): (r: Pass)
    requires PassOk(p) && PassRunLegal(p, evs)
    ensures PassOk(r)
    decreases |evs|
  {
    if evs == [] then p else PassRun(PassStep(p, evs[0]), evs[1..])
  }

  /** The entry is in the dictionary before and after every event of the run. */
  ghost predicate Throughout(p: Pass, evs: seq<PassEvent>, x: Entry)
    requires PassOk(p) && PassRunLegal(p, evs)
    decreases |evs|
  {
    x in Bag(p.s) && (evs != [] ==> Throughout(PassStep(p, evs[0]), evs[1..], x))
  }

  lemma {:induction false} PassRunTracks(p: Pass, evs: seq<PassEvent>, x: Entry)
    requires PassOk(p) && PassRunLegal(p, evs) && Throughout(p, evs, x)
    ensures Count(PassRun(p, evs), x) == Count(p, x)
    decreases |evs|
  {
    hide PassOk, PassStep, Count, Bag;
    if evs != [] {
      PassRunTracks(PassStep(p, evs[0]), evs[1..], x);
    }
  }

  /** The first dict_next of a safe iterator starts the pass. */
  ghost function Begin(s: State): Pass
    requires |s.t0| < MAX_BUCKETS && |s.t1| < MAX_BUCKETS
  {
    AfterNext(Pass(s, NewIt(true), []))
  }

  lemma PendingAtStart(s: State, safe: bool)
    requires WF(s) && |s.t0| < MAX_BUCKETS && |s.t1| < MAX_BUCKETS
    ensures multiset(Pending(s, NewIt(safe))) == Bag(s)
    ensures NoDup(Pending(s, NewIt(safe)))
  {
    assert s.t0[0..] == s.t0;
    WFTables(s);
    WFBag(s);
    hide WF;
    InBagOnce(Bag(s), Pending(s, NewIt(safe)));
  }

  lemma BeginOk(s: State)
    requires WF(s) && |s.t0| < MAX_BUCKETS && |s.t1| < MAX_BUCKETS && s.iterators >= 0
    ensures PassOk(Begin(s)) && Bag(Begin(s).s) == Bag(s)
    ensures forall x | x in Bag(s) :: Count(Begin(s), x) == 1
  {
    hide WF, Pending, Left, ItOk, Bag;
    var p := Pass(s, NewIt(true), []);
    FreshItOk(s, true);
    NextPass(p);
    PendingAtStart(s, true);
    WFBag(s);
    var r := AfterNext(p);
    hide AfterNext;
    assert r.seen + Left(r) == Pending(s, p.it);
    NoDupSplit(r.seen, Left(r));
    forall x | x in Bag(s)
      ensures Count(r, x) == 1
    {
      CountAppend(r.seen, Left(r), x);
    }
  }

  lemma FreshItOk(s: State, safe: bool)
    requires |s.t0| < MAX_BUCKETS && |s.t1| < MAX_BUCKETS
    ensures ItOk(s, NewIt(safe))
  {
  }

  /** Once the iterator is exhausted, every entry that stayed in the dictionary
      was returned exactly once; and no entry is ever returned twice. */
  lemma SafePassExact(s: State, evs: seq<PassEvent>)
    requires WF(s) && |s.t0| < MAX_BUCKETS && |s.t1| < MAX_BUCKETS && s.iterators >= 0
    requires PassOk(Begin(s)) && PassRunLegal(Begin(s), evs)
    ensures var r := PassRun(Begin(s), evs);
            && NoDup(r.seen)
            && (!r.Running() ==> forall x | x in Bag(s) && Throughout(Begin(s), evs, x) ::
                  multiset(r.seen)[x] == 1)
  {
    BeginOk(s);
    var r := PassRun(Begin(s), evs);
    if !r.Running() {
      forall x | x in Bag(s) && Throughout(Begin(s), evs, x)
        ensures multiset(r.seen)[x] == 1
      {
        PassRunTracks(Begin(s), evs, x);
      }
    }
  }
}
