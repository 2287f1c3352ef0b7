/** What whole runs of dictionary operations guarantee: the two migrating
    tables behave as one finite map, entry objects keep their identity, and the
    load never outgrows the table being filled. */
module DictRuns {
  import opened Wrappers
  import opened Bytes
  import opened HashArithmetic
  import opened DictModel
  import opened DictOps

  // ----- refinement of a finite map -----

  ghost function MapOf(b: multiset<Entry>): map<Key, Entry>
    requires Unique(b)
  {
    UniqueKeys(b);
    map x | x in b :: x.key := x
  }

  /** The finite map the two tables stand for. */
  ghost function Contents(s: State): map<Key, Entry>
    requires WF(s)
  {
    MapOf(Bag(s))
  }

  ghost function MapFind(m: map<Key, Entry>, key: Key): Option<Entry> {
    if key in m then Some(m[key]) else None
  }

  /** The map represents the bag: one key per entry, and no other key. */
  ghost predicate Represents(m: map<Key, Entry>, b: multiset<Entry>) {
    && (forall x | x in b :: x.key in m && m[x.key] == x)
    && (forall k | k in m :: m[k] in b && m[k].key == k)
  }

  lemma MapOfRepresents(b: multiset<Entry>)
    requires Unique(b)
    ensures Represents(MapOf(b), b)
  {
    UniqueKeys(b);
  }

  lemma InsertRepresents(b: multiset<Entry>, e: Entry, m: map<Key, Entry>, n: map<Key, Entry>)
    requires Represents(m, b) && Represents(n, b + multiset{e}) && e.key !in m
    ensures n == m[e.key := e]
  {
    assert e in b + multiset{e};
    assert forall x :: x in b + multiset{e} <==> x in b || x == e;
  }

  lemma RemoveRepresents(b: multiset<Entry>, e: Entry, m: map<Key, Entry>, n: map<Key, Entry>)
    requires Represents(m, b) && Represents(n, b - multiset{e}) && e in b && b[e] == 1
    ensures n == m - {e.key}
  {
    assert forall x :: x in b - multiset{e} <==> x in b && x.key != e.key;
  }

  lemma MapOfInsert(b: multiset<Entry>, e: Entry)
    requires Unique(b) && Unique(b + multiset{e}) && e.key !in MapOf(b)
    ensures MapOf(b + multiset{e}) == MapOf(b)[e.key := e]
  {
    MapOfRepresents(b);
    MapOfRepresents(b + multiset{e});
    InsertRepresents(b, e, MapOf(b), MapOf(b + multiset{e}));
  }

  lemma MapOfRemove(b: multiset<Entry>, e: Entry)
    requires Unique(b) && Unique(b - multiset{e}) && e in b
    ensures MapOf(b - multiset{e}) == MapOf(b) - {e.key}
  {
    MapOfRepresents(b);
    MapOfRepresents(b - multiset{e});
    hide MapOf, Represents;
    RemoveRepresents(b, e, MapOf(b), MapOf(b - multiset{e}));
  }

  lemma MapOfAbsent(b: multiset<Entry>, key: Key)
    requires Unique(b) && forall x | x in b :: x.key != key
    ensures MapOf(b) - {key} == MapOf(b)
  {
  }

  lemma WFUnique(s: State)
    requires WF(s)
    ensures Unique(Bag(s))
  {
  }

  /** The contents determine the elements, however they are spread over the tables. */
  lemma ContentsGiveBag(s: State, r: State)
    requires WF(s) && WF(r) && Contents(s) == Contents(r)
    ensures Bag(s) == Bag(r)
  {
    hide WF, Bag, MapOf, Represents;
    WFUnique(s);
    WFUnique(r);
    MapOfRepresents(Bag(s));
    MapOfRepresents(Bag(r));
    SameBag(MapOf(Bag(s)), Bag(s), Bag(r));
  }

  lemma SameBag(m: map<Key, Entry>, b: multiset<Entry>, c: multiset<Entry>)
    requires Unique(b) && Unique(c) && Represents(m, b) && Represents(m, c)
    ensures b == c
  {
    assert forall x | x in b :: x in c;
    assert forall x | x in c :: x in b;
    assert forall x | x in b || x in c :: b[x] == 1 && c[x] == 1;
  }

  lemma LookupIsMapFind(s: State, key: Key)
    requires WF(s)
    ensures Lookup(s, key) == MapFind(Contents(s), key)
    ensures HasKey(s, key) <==> key in Contents(s)
  {
    LookupIsMembership(s, key);
    UniqueKeys(Bag(s));
    if Lookup(s, key).Some? {
      assert Lookup(s, key).value.key in MapOf(Bag(s));
    }
  }

  datatype Op =
    | AddOp(e: Entry, canResize: bool)
    | ReplaceOp(e: Entry, canResize: bool)
    | FindOp(key: Key)
    | DeleteOp(key: Key)
    | ExpandOp(size: nat)
    | RehashOp(n: nat)

  /** What the caller sees: a status for updates, an entry for lookups. */
  datatype Outcome = Status(ok: bool) | Found(entry: Option<Entry>) | Quiet

  /** The limits of int indices; no operation has any other precondition. */
  ghost predicate Allowed(s: State, op: Op) {
    match op
    case AddOp(_, _) => Room(s)
    case ReplaceOp(_, _) => Room(s)
    case ExpandOp(size) => CanExpand(s, size) ==> ExpandFits(s, size)
    case _ => true
  }

  ghost function Step(s: State, op: Op): (r: State)
    requires WF(s) && Allowed(s, op)
    ensures WF(r) && r.iterators == s.iterators
  {
    match op
    case AddOp(e, canResize) => Add(s, e, canResize)
    case ReplaceOp(e, canResize) =>
      var a := Add(s, e, canResize);
      if HasKey(s, e.key) then Find(a, e.key) else a
    case FindOp(key) => Find(s, key)
    case DeleteOp(key) => Delete(s, key)
    case ExpandOp(size) => if CanExpand(s, size) then Expand(s, size) else s
    case RehashOp(n) => Rehash(s, n)
  }

  /** The outcome computed on the two tables, after the operation's own rehash step. */
  ghost function StepOutcome(s: State, op: Op): Outcome
    requires WF(s) && Allowed(s, op)
  {
    match op
    case AddOp(e, canResize) => Status(Lookup(Prepared(s, canResize), e.key).None?)
    case ReplaceOp(e, canResize) => Status(Lookup(Prepared(s, canResize), e.key).None?)
    case FindOp(key) => Found(Lookup(Find(s, key), key))
    case DeleteOp(key) => Status(Lookup(Find(s, key), key).Some?)
    case ExpandOp(size) => Quiet
    case RehashOp(n) => Quiet
  }

  /** The same operations on a map; replacing keeps the entry object of the key. */
  ghost function MapStep(m: map<Key, Entry>, op: Op): map<Key, Entry> {
    match op
    case AddOp(e, _) => if e.key in m then m else m[e.key := e]
    case ReplaceOp(e, _) => if e.key in m then m else m[e.key := e]
    case DeleteOp(key) => m - {key}
    case _ => m
  }

  ghost function MapOutcome(m: map<Key, Entry>, op: Op): Outcome {
    match op
    case AddOp(e, _) => Status(e.key !in m)
    case ReplaceOp(e, _) => Status(e.key !in m)
    case FindOp(key) => Found(MapFind(m, key))
    case DeleteOp(key) => Status(key in m)
    case _ => Quiet
  }

  lemma MapOfAdd(b: multiset<Entry>, c: multiset<Entry>, e: Entry)
    requires Unique(b) && Unique(c)
    requires c == if KeyIn(b, e.key) then b else b + multiset{e}
    ensures MapOf(c) == if e.key in MapOf(b) then MapOf(b) else MapOf(b)[e.key := e]
  {
    MapOfRepresents(b);
    hide Unique, MapOf;
    assert KeyIn(b, e.key) <==> e.key in MapOf(b);
    hide Represents, KeyIn;
    if !KeyIn(b, e.key) {
      MapOfInsert(b, e);
    }
  }

  lemma AddContents(s: State, e: Entry, canResize: bool)
    requires WF(s) && Room(s)
    ensures Contents(Add(s, e, canResize)) == MapStep(Contents(s), AddOp(e, canResize))
  {
    hide WF, Add, Bag, KeyIn, Unique, MapOf, Room;
    WFUnique(s);
    WFUnique(Add(s, e, canResize));
    MapOfAdd(Bag(s), Bag(Add(s, e, canResize)), e);
  }

  lemma AddStatus(s: State, e: Entry, canResize: bool)
    requires WF(s) && Room(s)
    ensures Lookup(Prepared(s, canResize), e.key).None? <==> e.key !in Contents(s)
  {
    LookupIsMapFind(Prepared(s, canResize), e.key);
  }

  lemma PreparedContents(s: State, canResize: bool)
    requires WF(s) && Room(s)
    ensures Contents(Prepared(s, canResize)) == Contents(s) && Prepared(s, canResize).iterators == s.iterators
  {
    hide WF, Bag, Prepared, Room, MapOf;
  }

  lemma AddRefinesMap(s: State, e: Entry, canResize: bool)
    requires WF(s) && Room(s)
    ensures Contents(Add(s, e, canResize)) == MapStep(Contents(s), AddOp(e, canResize))
    ensures Lookup(Prepared(s, canResize), e.key).None? <==> e.key !in Contents(s)
  {
    hide WF, Add, Bag, HasKey, Contents, MapStep, Prepared, Lookup;
    AddContents(s, e, canResize);
    AddStatus(s, e, canResize);
  }

  lemma DeleteRefinesMap(s: State, key: Key)
    requires WF(s)
    ensures Contents(Delete(s, key)) == Contents(s) - {key}
  {
    LookupIsMembership(s, key);
    if Lookup(s, key).Some? {
      MapOfRemove(Bag(s), Lookup(s, key).value);
    } else {
      MapOfAbsent(Bag(s), key);
    }
  }

  lemma FindRefinesMap(s: State, key: Key)
    requires WF(s)
    ensures Contents(Find(s, key)) == Contents(s)
    ensures Lookup(Find(s, key), key) == MapFind(Contents(s), key)
  {
    LookupIsMapFind(Find(s, key), key);
  }

  /** One operation on two migrating tables is one operation on a finite map. */
  lemma StepRefinesMap(s: State, op: Op)
    requires WF(s) && Allowed(s, op)
    ensures Contents(Step(s, op)) == MapStep(Contents(s), op)
    ensures StepOutcome(s, op) == MapOutcome(Contents(s), op)
  {
    hide WF, Add, Find, Delete, Expand, Rehash, Prepared, Bag, Lookup, MapOf, Room, CanExpand, ExpandFits;
    match op
    case AddOp(e, canResize) =>
      AddRefinesMap(s, e, canResize);
    case ReplaceOp(e, canResize) =>
      AddRefinesMap(s, e, canResize);
      FindRefinesMap(Add(s, e, canResize), e.key);
    case FindOp(key) =>
      FindRefinesMap(s, key);
    case DeleteOp(key) =>
      DeleteRefinesMap(s, key);
      FindRefinesMap(s, key);
    case ExpandOp(size) =>
    case RehashOp(n) =>
  }

  ghost predicate Legal(s: State, ops: seq<Op>)
    requires WF(s)
    decreases |ops|
  {
    ops == [] || (Allowed(s, ops[0]) && Legal(Step(s, ops[0]), ops[1..]))
  }

  ghost function Run(s: State, ops: seq<Op>): (r: State)
    requires WF(s) && Legal(s, ops)
    ensures WF(r) && r.iterators == s.iterators
    decreases |ops|
  {
    if ops == [] then s else Run(Step(s, ops[0]), ops[1..])
  }

  ghost function Outcomes(s: State, ops: seq<Op>): seq<Outcome>
    requires WF(s) && Legal(s, ops)
    decreases |ops|
  {
    if ops == [] then [] else [StepOutcome(s, ops[0])] + Outcomes(Step(s, ops[0]), ops[1..])
  }

  ghost function MapRun(m: map<Key, Entry>, ops: seq<Op>): map<Key, Entry>
    decreases |ops|
  {
    if ops == [] then m else MapRun(MapStep(m, ops[0]), ops[1..])
  }

  ghost function MapOutcomes(m: map<Key, Entry>, ops: seq<Op>): seq<Outcome>
    decreases |ops|
  {
    if ops == [] then [] else [MapOutcome(m, ops[0])] + MapOutcomes(MapStep(m, ops[0]), ops[1..])
  }

  /** Every run of the dictionary is observably a run of a finite map. */
  lemma {:induction false} RunRefinesMap(s: State, ops: seq<Op>)
    requires WF(s) && Legal(s, ops)
    ensures Contents(Run(s, ops)) == MapRun(Contents(s), ops)
    ensures Outcomes(s, ops) == MapOutcomes(Contents(s), ops)
    decreases |ops|
  {
    if ops != [] {
      StepRefinesMap(s, ops[0]);
      RunRefinesMap(Step(s, ops[0]), ops[1..]);
    }
  }

  lemma {:induction false} MapRunKeeps(m: map<Key, Entry>, ops: seq<Op>, key: Key)
    requires key in m && DeleteOp(key) !in ops
    ensures MapFind(MapRun(m, ops), key) == Some(m[key])
    decreases |ops|
  {
    if ops != [] {
      MapRunKeeps(MapStep(m, ops[0]), ops[1..], key);
    }
  }

  /** An entry object stays the entry of its key until that key is deleted. */
  lemma EntryIdentity(s: State, ops: seq<Op>, x: Entry)
    requires WF(s) && Legal(s, ops)
    requires Lookup(s, x.key) == Some(x)
    requires DeleteOp(x.key) !in ops
    ensures Lookup(Run(s, ops), x.key) == Some(x)
  {
    LookupIsMapFind(s, x.key);
    LookupIsMapFind(Run(s, ops), x.key);
    RunRefinesMap(s, ops);
    MapRunKeeps(Contents(s), ops, x.key);
  }

  // ----- exact progress of rehashing -----

  lemma {:induction false} RehashCounts(s: State, n: nat)
    requires WF(s) && s.Rehashing()
    ensures !Rehash(s, n).Rehashing() <==> n > NonEmpty(s.t0)
    ensures n <= NonEmpty(s.t0) ==> NonEmpty(Rehash(s, n).t0) == NonEmpty(s.t0) - n
    decreases n
  {
    hide WF, Bag, NonEmpty, RehashOne, Used;
    if n > 0 {
      WFShape(s);
      RehashOneProgress(s);
      RehashOneKeeps(s);
      FlatEmpty(s.t0);
      var r := RehashOne(s);
      if r.Rehashing() {
        RehashCounts(r, n - 1);
      }
    }
  }

  /** With B non-empty old buckets, n steps finish the swap exactly when n > B,
      and otherwise move exactly n buckets. Nothing is lost on the way. */
  lemma RehashProgress(s: State, n: nat)
    requires WF(s) && s.Rehashing()
    ensures !Rehash(s, n).Rehashing() <==> n > NonEmpty(s.t0)
    ensures n <= NonEmpty(s.t0) ==> NonEmpty(Rehash(s, n).t0) == NonEmpty(s.t0) - n
    ensures Contents(Rehash(s, n)) == Contents(s)
    ensures Used(Rehash(s, n).t0) + Used(Rehash(s, n).t1) == Used(s.t0) + Used(s.t1)
  {
    BagSize(s);
    BagSize(Rehash(s, n));
    RehashCounts(s, n);
  }

  // ----- load bound -----

  ghost predicate LoadOk(s: State) {
    if s.Rehashing() then |Bag(s)| + NonEmpty(s.t0) <= |s.t1| + 1
    else Used(s.t0) <= |s.t0| + 1
  }

  lemma BagSize(s: State)
    ensures |Bag(s)| == Used(s.t0) + Used(s.t1)
    ensures s.t0 == [] ==> Used(s.t0) == 0
    ensures !s.Rehashing() && s.t1 == [] ==> |Bag(s)| == Used(s.t0)
  {
    assert Flat([]) == [];
  }

  /** A step while rehashing pays for one insertion. */
  lemma StepPays(s: State)
    requires WF(s) && LoadOk(s) && s.iterators == 0
    ensures LoadOk(StepIfFree(s))
    ensures s.Rehashing() && StepIfFree(s).Rehashing() ==>
              |Bag(s)| + NonEmpty(StepIfFree(s).t0) <= |s.t1| && |StepIfFree(s).t1| == |s.t1|
  {
    BagSize(s);
    BagSize(StepIfFree(s));
    if s.Rehashing() {
      RehashOneProgress(s);
      RehashOneKeeps(s);
      assert Rehash(s, 1) == Rehash(RehashOne(s), 0) == RehashOne(s);
    }
  }

  lemma GrowthPays(s: State)
    requires WF(s) && LoadOk(s) && Room(s) && !s.Rehashing()
    ensures LoadOk(ExpandIfNeeded(s, true))
    ensures var r := ExpandIfNeeded(s, true);
            if r.Rehashing() then |Bag(s)| + NonEmpty(r.t0) <= |r.t1| else Used(r.t0) < |r.t0|
  {
    var r := ExpandIfNeeded(s, true);
    BagSize(s);
    BagSize(r);
    FlatEmpty(s.t0);
    FlatEmpty(r.t0);
    if NeedsGrowth(s, true) {
      NextPowerIsLeast(GrowthSize(s));
      Pow2Max();
      GrowthFits(s, true);
    }
  }

  lemma PreparedHasRoom(s: State)
    requires WF(s) && Room(s) && LoadOk(s) && s.iterators == 0
    ensures LoadOk(Prepared(s, true))
    ensures var r := Prepared(s, true);
            if r.Rehashing() then |Bag(s)| + NonEmpty(r.t0) <= |r.t1| else Used(r.t0) < |r.t0|
  {
    StepPays(s);
    if !StepIfFree(s).Rehashing() {
      GrowthPays(StepIfFree(s));
    }
  }

  lemma AddKeepsLoad(s: State, e: Entry)
    requires WF(s) && Room(s) && LoadOk(s) && s.iterators == 0
    ensures LoadOk(Add(s, e, true))
  {
    PreparedHasRoom(s);
    var p := Prepared(s, true);
    if Lookup(p, e.key).None? {
      InsertKeeps(p, e);
      BagSize(p);
      BagSize(Insert(p, e));
    }
  }

  lemma DeleteKeepsLoad(s: State, key: Key)
    requires WF(s) && LoadOk(s) && s.iterators == 0
    ensures LoadOk(Delete(s, key))
  {
    if s.t0 != [] {
      StepPays(s);
      RemoveKeepsLoad(StepIfFree(s), key);
    }
  }

  lemma RemoveKeepsLoad(s: State, key: Key)
    requires WF(s) && LoadOk(s) && s.t0 != []
    ensures LoadOk(Remove(s, key))
  {
    hide WF, Bag, FindIn, Placed;
    WFShape(s);
    RemoveKeeps(s, key);
    BagSize(s);
    BagSize(Remove(s, key));
    if FindInTable(s.t0, key).Some? {
      var i := Slot(key, |s.t0|);
      NonEmptyUpdate(s.t0, i, Unlink(s.t0[i], key));
    }
  }

  /** Operations of an amortised run: resizing enabled, explicit sizing only while empty. */
  ghost predicate Amortised(s: State, op: Op)
    requires WF(s) && Allowed(s, op)
  {
    match op
    case AddOp(_, canResize) => canResize
    case ReplaceOp(_, canResize) => canResize
    case ExpandOp(_) => |Bag(s)| == 0
    case _ => true
  }

  lemma RehashOneKeepsLoad(s: State)
    requires WF(s) && LoadOk(s) && s.Rehashing()
    ensures LoadOk(RehashOne(s))
  {
    RehashOneProgress(s);
    RehashOneKeeps(s);
    BagSize(s);
    BagSize(RehashOne(s));
  }

  lemma {:induction false} RehashKeepsLoad(s: State, n: nat)
    requires WF(s) && LoadOk(s)
    ensures LoadOk(Rehash(s, n))
    decreases n
  {
    hide WF, LoadOk, RehashOne;
    if n > 0 && s.Rehashing() {
      WFShape(s);
      RehashOneKeeps(s);
      RehashOneKeepsLoad(s);
      RehashKeepsLoad(RehashOne(s), n - 1);
    }
  }

  lemma FindKeepsLoad(s: State, key: Key)
    requires WF(s) && LoadOk(s) && s.iterators == 0
    ensures LoadOk(Find(s, key))
  {
    StepPays(s);
  }

  lemma SizingKeepsLoad(s: State, size: nat)
    requires WF(s) && CanExpand(s, size) && ExpandFits(s, size) && |Bag(s)| == 0
    ensures LoadOk(Expand(s, size))
  {
    BagSize(s);
    BagSize(Expand(s, size));
    FlatEmpty(s.t0);
  }

  lemma StepKeepsLoad(s: State, op: Op)
    requires WF(s) && Allowed(s, op) && LoadOk(s) && s.iterators == 0 && Amortised(s, op)
    ensures LoadOk(Step(s, op))
  {
    hide WF, Add, Find, Delete, Rehash, Bag, LoadOk, StepIfFree;
    match op
    case AddOp(e, _) => AddKeepsLoad(s, e);
    case ReplaceOp(e, _) =>
      AddKeepsLoad(s, e);
      FindKeepsLoad(Add(s, e, true), e.key);
    case FindOp(key) => FindKeepsLoad(s, key);
    case DeleteOp(key) => DeleteKeepsLoad(s, key);
    case ExpandOp(size) =>
      if CanExpand(s, size) {
        SizingKeepsLoad(s, size);
      }
    case RehashOp(n) => RehashKeepsLoad(s, n);
  }

  ghost predicate AmortisedRun(s: State, ops: seq<Op>)
    requires WF(s) && Legal(s, ops)
    decreases |ops|
  {
    ops == [] || (Amortised(s, ops[0]) && AmortisedRun(Step(s, ops[0]), ops[1..]))
  }

  lemma {:induction false} RunKeepsLoad(s: State, ops: seq<Op>)
    requires WF(s) && Legal(s, ops) && LoadOk(s) && s.iterators == 0 && AmortisedRun(s, ops)
    ensures LoadOk(Run(s, ops))
    decreases |ops|
  {
    if ops != [] {
      StepKeepsLoad(s, ops[0]);
      RunKeepsLoad(Step(s, ops[0]), ops[1..]);
    }
  }

  lemma NewDictIsEmpty()
    ensures WF(NEW_DICT) && Contents(NEW_DICT) == map[] && LoadOk(NEW_DICT)
  {
    assert Bag(NEW_DICT) == multiset{};
  }

  /** From a new dictionary the load bound holds after every amortised run. */
  lemma LoadBound(ops: seq<Op>)
    requires WF(NEW_DICT) && Legal(NEW_DICT, ops) && AmortisedRun(NEW_DICT, ops)
    ensures var r := Run(NEW_DICT, ops);
            if r.Rehashing() then Used(r.t0) + Used(r.t1) + NonEmpty(r.t0) <= |r.t1| + 1
            else Used(r.t0) <= |r.t0| + 1
  {
    NewDictIsEmpty();
    hide WF, Run, Legal, AmortisedRun, Bag;
    RunKeepsLoad(NEW_DICT, ops);
    BagSize(Run(NEW_DICT, ops));
  }
}
