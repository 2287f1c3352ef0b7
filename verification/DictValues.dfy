/** The values behind the entries: every run on the linked tables is a run of a
    finite map from keys to values, replaced values included. */
module DictValues {
  import opened Wrappers
  import opened Bytes
  import opened HashArithmetic
  import opened DictModel
  import opened DictOps
  import opened DictRuns
  import opened DictSafePass
  import opened Dict

  /** A value and its length. */
  type Item = (object?, nat)

  datatype ValueOp =
    | PutNew(key: Key, val: object?, vallen: nat, canResize: bool)
    | Put(key: Key, val: object?, vallen: nat, canResize: bool)
    | Get(key: Key)
    | Drop(key: Key)
    | Migrate(n: int)
    | Size(size: nat)

  datatype Answer = Done(ok: bool) | Got(item: Option<Item>) | Nothing

  /** What the dictionary stores under each key. */
  ghost function Values(d: Dict): map<Key, Item>
    requires d.Valid()
    reads d, d.arrays, d.entries
  {
    d.ContentsOwned();
    map k | k in Contents(d.Model()) :: (Contents(d.Model())[k].val, Contents(d.Model())[k].vallen)
  }

  function ValueStep(m: map<Key, Item>, op: ValueOp): map<Key, Item> {
    match op
    case PutNew(key, val, vallen, _) => if key in m then m else m[key := (val, vallen)]
    case Put(key, val, vallen, _) => m[key := (val, vallen)]
    case Drop(key) => m - {key}
    case _ => m
  }

  function ValueAnswer(m: map<Key, Item>, op: ValueOp): Answer {
    match op
    case PutNew(key, _, _, _) => Done(key !in m)
    case Put(key, _, _, _) => Done(key !in m)
    case Get(key) => Got(if key in m then Some(m[key]) else None)
    case Drop(key) => Done(key in m)
    case _ => Nothing
  }

  function ValueRun(m: map<Key, Item>, ops: seq<ValueOp>): map<Key, Item>
    decreases |ops|
  {
    if ops == [] then m else ValueRun(ValueStep(m, ops[0]), ops[1..])
  }

  function ValueAnswers(m: map<Key, Item>, ops: seq<ValueOp>): seq<Answer>
    decreases |ops|
  {
    if ops == [] then [] else [ValueAnswer(m, ops[0])] + ValueAnswers(ValueStep(m, ops[0]), ops[1..])
  }

  // ----- values by way of the entries -----

  ghost function Snapshot(d: Dict): map<Entry, Item>
    reads d, d.entries
  {
    map x | x in d.entries :: (x.val, x.vallen)
  }

  ghost predicate Covers(f: map<Entry, Item>, m: map<Key, Entry>) {
    forall k | k in m :: m[k] in f
  }

  ghost function ValuesIn(m: map<Key, Entry>, f: map<Entry, Item>): map<Key, Item>
    requires Covers(f, m)
  {
    map k | k in m :: f[m[k]]
  }

  lemma ValuesAre(d: Dict)
    requires d.Valid()
    ensures WF(d.Model()) && Covers(Snapshot(d), Contents(d.Model()))
    ensures Values(d) == ValuesIn(Contents(d.Model()), Snapshot(d))
  {
    hide d.Valid, WF, Bag, MapOf;
    d.ModelOk();
    EntriesOwned(d);
  }

  lemma EntriesOwned(d: Dict)
    requires d.Valid()
    ensures WF(d.Model()) && forall k | k in Contents(d.Model()) :: Contents(d.Model())[k] in d.entries
  {
    hide d.Valid, WF, Bag, MapOf, Unique;
    d.ModelOk();
    d.ContentsOwned();
    WFUnique(d.Model());
    MapOfRepresents(Bag(d.Model()));
  }

  /** Every entry of f is in g with the same value, except perhaps one. */
  ghost predicate Extends(g: map<Entry, Item>, f: map<Entry, Item>, but: Option<Entry>) {
    forall x | x in f :: x in g && (Some(x) != but ==> g[x] == f[x])
  }

  lemma SameValues(m: map<Key, Entry>, f: map<Entry, Item>, g: map<Entry, Item>)
    requires Covers(f, m) && Extends(g, f, None)
    ensures Covers(g, m) && ValuesIn(m, g) == ValuesIn(m, f)
  {
  }

  ghost predicate Keyed(m: map<Key, Entry>) {
    forall k | k in m :: m[k].key == k
  }

  /** Setting the value behind one key, new or not. */
  lemma PutValue(m: map<Key, Entry>, f: map<Entry, Item>, g: map<Entry, Item>, e: Entry)
    requires Covers(f, m) && Keyed(m) && Extends(g, f, Some(e)) && e in g
    ensures Covers(g, m[e.key := e]) && ValuesIn(m[e.key := e], g) == ValuesIn(m, f)[e.key := g[e]]
  {
  }

  lemma DropValue(m: map<Key, Entry>, f: map<Entry, Item>, key: Key)
    requires Covers(f, m)
    ensures Covers(f, m - {key}) && ValuesIn(m - {key}, f) == ValuesIn(m, f) - {key}
  {
  }

  lemma ContentsKeyed(s: State)
    requires WF(s)
    ensures Keyed(Contents(s))
  {
    MapOfRepresents(Bag(s));
  }

  lemma AddCount(s: State, e: Entry, canResize: bool)
    requires WF(s) && Room(s)
    ensures |Bag(Add(s, e, canResize))| <= |Bag(s)| + 1
  {
  }

  // ----- tables that explicit sizing can still replace -----

  ghost predicate Small(s: State) {
    |s.t0| < MAX_BUCKETS && |s.t1| < MAX_BUCKETS
  }

  /** Growth of the next insertion still gives a table a cursor can count through. */
  ghost predicate Few(s: State) {
    Small(s) && |Bag(s)| <= MAX_BUCKETS / 4
  }

  lemma {:induction false} RehashSmall(s: State, n: nat)
    requires WF(s)
    ensures Small(s) ==> Small(Rehash(s, n))
    decreases n
  {
    hide WF, Used, RehashOne, Small, Shape, Bag;
    if n > 0 && s.Rehashing() && Small(s) {
      WFShape(s);
      RehashOneKeeps(s);
      OneSmall(s);
      RehashSmall(RehashOne(s), n - 1);
    }
  }

  lemma OneSmall(s: State)
    requires WF(s) && s.Rehashing() && Small(s)
    ensures Small(RehashOne(s))
  {
    if Used(s.t0) > 0 {
      ScanStops(s);
    }
  }

  lemma StepSmall(s: State)
    requires WF(s) && Small(s)
    ensures Small(StepIfFree(s))
  {
    hide WF, Rehash;
    RehashSmall(s, 1);
  }

  lemma PreparedSmall(s: State, canResize: bool)
    requires WF(s) && Small(s) && |Bag(s)| <= MAX_BUCKETS / 4
    ensures Room(s) && Small(Prepared(s, canResize))
  {
    var p := StepIfFree(s);
    StepSmall(s);
    GrowthStaysSigned(p, canResize);
    hide WF, Bag, StepIfFree, Used;
    if NeedsGrowth(p, canResize) {
      GrowthFits(p, canResize);
    }
  }

  lemma AddSmall(s: State, e: Entry, canResize: bool)
    requires WF(s) && Small(s) && |Bag(s)| <= MAX_BUCKETS / 4
    ensures Room(s) && Small(Add(s, e, canResize))
  {
    hide WF, Bag, Prepared, Lookup;
    PreparedSmall(s, canResize);
  }

  lemma RemoveSmall(s: State, key: Key)
    requires s.t0 != [] && (s.Rehashing() ==> s.t1 != []) && Small(s)
    ensures Small(Remove(s, key))
  {
  }

  lemma AddSmallIfFew(s: State, e: Entry, canResize: bool)
    requires WF(s) && Room(s)
    ensures Few(s) ==> Small(Add(s, e, canResize))
  {
    hide WF, Bag, Add;
    if Few(s) {
      AddSmall(s, e, canResize);
    }
  }

  lemma FindSmall(s: State, key: Key)
    requires WF(s)
    ensures Small(s) ==> Small(Find(s, key))
  {
    hide WF, StepIfFree;
    if s.t0 != [] && Small(s) {
      StepSmall(s);
    }
  }

  lemma DeleteSmall(s: State, key: Key)
    requires WF(s)
    ensures Small(s) ==> Small(Delete(s, key))
  {
    if s.t0 != [] && Small(s) {
      StepKeepsTables(s);
      hide WF, StepIfFree, Remove, Bag, Lookup;
      StepSmall(s);
      RemoveSmall(StepIfFree(s), key);
    }
  }

  // ----- one operation -----

  lemma KeyHeld(d: Dict, key: Key)
    requires d.Valid()
    ensures WF(d.Model()) && (HasKey(d.Model(), key) <==> key in Contents(d.Model()))
    ensures key in Values(d) <==> key in Contents(d.Model())
  {
    d.ModelOk();
    LookupIsMapFind(d.Model(), key);
  }

  method ApplyPutNew(d: Dict, key: Key, val: object?, vallen: nat, canResize: bool) returns (isNew: bool)
    requires d.Valid() && Room(d.Model())
    modifies d, d.arrays, d.entries`next
    ensures d.Valid() && fresh(d.arrays - old(d.arrays)) && fresh(d.entries - old(d.entries))
    ensures isNew <==> key !in old(Values(d))
    ensures Values(d) == if isNew then old(Values(d))[key := (val, vallen)] else old(Values(d))
    ensures |Bag(d.Model())| <= |old(Bag(d.Model()))| + 1
    ensures old(Few(d.Model())) ==> Small(d.Model())
  {
    hide d.Valid, WF, Bag, Contents, Room, Add, Prepared, HasKey, Values, ValuesIn, Keyed, Covers;
    ghost var s, f := d.Model(), Snapshot(d);
    ValuesAre(d);
    KeyHeld(d, key);
    ContentsKeyed(s);
    if Few(s) {
      PreparedSmall(s, canResize);
    }
    var r;
    ghost var e;
    r, e := d.DictAdd(key, val, vallen, canResize);
    ghost var g := Snapshot(d);
    ValuesAre(d);
    isNew := r == DICT_OK;
    if isNew {
      AddRefinesMap(s, e, canResize);
      AddCount(s, e, canResize);
      AddSmallIfFew(s, e, canResize);
      PutValue(Contents(s), f, g, e);
    } else {
      PreparedContents(s, canResize);
      SameValues(Contents(s), f, g);
    }
  }

  method ApplyPut(d: Dict, key: Key, val: object?, vallen: nat, canResize: bool) returns (isNew: bool)
    requires d.Valid() && Room(d.Model())
    modifies d, d.arrays, d.entries
    ensures d.Valid() && fresh(d.arrays - old(d.arrays)) && fresh(d.entries - old(d.entries))
    ensures isNew <==> key !in old(Values(d))
    ensures Values(d) == old(Values(d))[key := (val, vallen)]
    ensures |Bag(d.Model())| <= |old(Bag(d.Model()))| + 1
    ensures old(Few(d.Model())) ==> Small(d.Model())
  {
    hide d.Valid, WF, Bag, Contents, Room, Add, Prepared, HasKey, Values, ValuesIn, Keyed, Covers, Find, Lookup;
    ghost var s, f := d.Model(), Snapshot(d);
    ValuesAre(d);
    KeyHeld(d, key);
    ContentsKeyed(s);
    if Few(s) {
      PreparedSmall(s, canResize);
    }
    var r;
    ghost var e;
    r, e := d.DictReplace(key, val, vallen, canResize);
    ghost var g := Snapshot(d);
    ValuesAre(d);
    isNew := r == 1;
    if isNew {
      AddRefinesMap(s, e, canResize);
      AddCount(s, e, canResize);
      AddSmallIfFew(s, e, canResize);
    } else {
      PreparedContents(s, canResize);
      FindRefinesMap(Prepared(s, canResize), key);
      FindSmall(Prepared(s, canResize), key);
      HeldAgain(s, d.Model(), key, e);
    }
    EntryStored(d, e);
    PutValue(Contents(s), f, g, e);
  }

  lemma HeldAgain(s: State, r: State, key: Key, e: Entry)
    requires WF(s) && WF(r) && Contents(s) == Contents(r) && Lookup(r, key) == Some(e) && e.key == key
    ensures Contents(s)[key := e] == Contents(s) && Bag(r) == Bag(s)
  {
    LookupIsMapFind(r, key);
    ContentsGiveBag(s, r);
  }

  lemma EntryStored(d: Dict, e: Entry)
    requires d.Valid() && WF(d.Model()) && e.key in Contents(d.Model()) && Contents(d.Model())[e.key] == e
    ensures e in Snapshot(d) && Snapshot(d)[e] == (e.val, e.vallen)
  {
    ValuesAre(d);
  }

  method ApplyGet(d: Dict, key: Key) returns (item: Option<Item>)
    requires d.Valid()
    modifies d, d.arrays, d.entries`next
    ensures d.Valid() && d.arrays == old(d.arrays) && d.entries == old(d.entries)
    ensures Values(d) == old(Values(d)) && Bag(d.Model()) == old(Bag(d.Model()))
    ensures var m := old(Values(d)); item == if key in m then Some(m[key]) else None
    ensures old(Few(d.Model())) ==> Small(d.Model())
  {
    hide d.Valid, WF, Bag, Contents, Values, Covers, Find, Lookup;
    ghost var s, f := d.Model(), Snapshot(d);
    ValuesAre(d);
    FindRefinesMap(s, key);
    FindSmall(s, key);
    KeyHeld(d, key);
    var he := d.DictFind(key);
    ValuesAre(d);
    SameValues(Contents(s), f, Snapshot(d));
    item := if he == null then None else Some((he.val, he.vallen));
  }

  method ApplyDrop(d: Dict, key: Key) returns (found: bool)
    requires d.Valid()
    modifies d, d.arrays, d.entries`next
    ensures d.Valid() && d.arrays == old(d.arrays) && d.entries == old(d.entries)
    ensures Values(d) == old(Values(d)) - {key} && |Bag(d.Model())| <= |old(Bag(d.Model()))|
    ensures found <==> key in old(Values(d))
    ensures old(Few(d.Model())) ==> Small(d.Model())
  {
    hide d.Valid, WF, Bag, Contents, Values, ValuesIn, Covers, Delete, HasKey;
    ghost var s, f := d.Model(), Snapshot(d);
    ValuesAre(d);
    KeyHeld(d, key);
    DeleteRefinesMap(s, key);
    DropCount(s, key);
    DeleteSmall(s, key);
    var r := d.DictDelete(key);
    ValuesAre(d);
    SameValues(Contents(s), f, Snapshot(d));
    DropValue(Contents(s), Snapshot(d), key);
    found := r == DICT_OK;
  }

  lemma DropCount(s: State, key: Key)
    requires WF(s)
    ensures |Bag(Delete(s, key))| <= |Bag(s)|
  {
    LookupIsMembership(s, key);
  }

  method ApplyMigrate(d: Dict, n: int)
    requires d.Valid()
    modifies d, d.arrays, d.entries`next
    ensures d.Valid() && d.arrays == old(d.arrays) && d.entries == old(d.entries)
    ensures Values(d) == old(Values(d)) && Bag(d.Model()) == old(Bag(d.Model()))
    ensures old(Few(d.Model())) ==> Small(d.Model())
  {
    hide d.Valid, WF, Bag, Contents, Values, ValuesIn, Covers;
    ghost var s, f := d.Model(), Snapshot(d);
    ValuesAre(d);
    MigrateContents(s, StepsFor(n, s));
    RehashSmall(s, StepsFor(n, s));
    var r := d.DictRehash(n);
    ValuesAre(d);
    SameValues(Contents(s), f, Snapshot(d));
  }

  lemma MigrateContents(s: State, n: nat)
    requires WF(s)
    ensures Contents(Rehash(s, n)) == Contents(s)
  {
  }

  method ApplySize(d: Dict, size: nat)
    requires d.Valid() && size < TWO_TO_64 && (CanExpand(d.Model(), size) ==> ExpandFits(d.Model(), size))
    modifies d, d.arrays, d.entries`next
    ensures d.Valid() && fresh(d.arrays - old(d.arrays)) && d.entries == old(d.entries)
    ensures Values(d) == old(Values(d)) && Bag(d.Model()) == old(Bag(d.Model()))
    ensures old(Few(d.Model())) && NextPowerOf(size) < MAX_BUCKETS ==> Small(d.Model())
  {
    hide d.Valid, WF, Bag, Contents, Values, ValuesIn, Covers, CanExpand, ExpandFits;
    ghost var s, f := d.Model(), Snapshot(d);
    ValuesAre(d);
    if CanExpand(s, size) {
      SizedContents(s, size);
    }
    var r := d.DictExpand(size);
    ValuesAre(d);
    SameValues(Contents(s), f, Snapshot(d));
  }

  lemma SizedContents(s: State, size: nat)
    requires WF(s) && CanExpand(s, size) && ExpandFits(s, size)
    ensures Contents(Expand(s, size)) == Contents(s) && Bag(Expand(s, size)) == Bag(s)
    ensures Small(s) && NextPowerOf(size) < MAX_BUCKETS ==> Small(Expand(s, size))
  {
  }

  /** A new size must leave bucket indices within an int. */
  ghost predicate SizeFits(s: State, op: ValueOp) {
    op.Size? ==> op.size < TWO_TO_64 && (CanExpand(s, op.size) ==> ExpandFits(s, op.size))
  }

  /** One operation on the linked tables is one operation on a map from keys to values. */
  method Apply(d: Dict, op: ValueOp) returns (answer: Answer)
    requires d.Valid() && Room(d.Model()) && SizeFits(d.Model(), op)
    modifies d, d.arrays, d.entries
    ensures d.Valid() && fresh(d.arrays - old(d.arrays)) && fresh(d.entries - old(d.entries))
    ensures Values(d) == ValueStep(old(Values(d)), op)
    ensures answer == ValueAnswer(old(Values(d)), op)
    ensures |Bag(d.Model())| <= |old(Bag(d.Model()))| + 1
    ensures old(Few(d.Model())) && (op.Size? ==> NextPowerOf(op.size) < MAX_BUCKETS) ==> Small(d.Model())
  {
    hide d.Valid, WF, Bag, Values, Room, Few, Small;
    match op {
      case PutNew(key, val, vallen, canResize) =>
        var isNew := ApplyPutNew(d, key, val, vallen, canResize);
        answer := Done(isNew);
      case Put(key, val, vallen, canResize) =>
        var isNew := ApplyPut(d, key, val, vallen, canResize);
        answer := Done(isNew);
      case Get(key) =>
        var item := ApplyGet(d, key);
        answer := Got(item);
      case Drop(key) =>
        var found := ApplyDrop(d, key);
        answer := Done(found);
      case Migrate(n) =>
        ApplyMigrate(d, n);
        answer := Nothing;
      case Size(size) =>
        ApplySize(d, size);
        answer := Nothing;
    }
  }

  /** Bucket indices stay within an int: up to 2^30 entries, or, if the run resizes
      the table explicitly, up to 2^29 and with sizes below 2^31. */
  ghost predicate RunFits(s: State, ops: seq<ValueOp>) {
    && |Bag(s)| + |ops| <= MAX_BUCKETS / 2
    && ((exists op :: op in ops && op.Size?) ==>
          && Small(s) && |Bag(s)| + |ops| <= MAX_BUCKETS / 4
          && forall op | op in ops && op.Size? :: NextPowerOf(op.size) < MAX_BUCKETS)
  }

  lemma FitsFirst(s: State, ops: seq<ValueOp>)
    requires WF(s) && ops != [] && RunFits(s, ops)
    ensures Room(s) && SizeFits(s, ops[0])
    ensures (exists op :: op in ops && op.Size?) ==> Few(s) && (ops[0].Size? ==> NextPowerOf(ops[0].size) < MAX_BUCKETS)
  {
    hide WF, Bag;
    if ops[0].Size? {
      NextPowerIsLeast(ops[0].size);
    }
  }

  lemma FitsRest(s: State, r: State, ops: seq<ValueOp>)
    requires ops != [] && RunFits(s, ops) && |Bag(r)| <= |Bag(s)| + 1
    requires (exists op :: op in ops && op.Size?) ==> Small(r)
    ensures RunFits(r, ops[1..])
  {
    hide Bag, Small;
    assert forall op | op in ops[1..] :: op in ops;
  }

  /** Every run on the linked tables is a run of a finite map from keys to values:
      a lookup answers what was last put under its key and not deleted since. */
  method Run(d: Dict, ops: seq<ValueOp>) returns (answers: seq<Answer>)
    requires d.Valid() && RunFits(d.Model(), ops)
    modifies d, d.arrays, d.entries
    ensures d.Valid() && fresh(d.arrays - old(d.arrays)) && fresh(d.entries - old(d.entries))
    ensures Values(d) == ValueRun(old(Values(d)), ops)
    ensures answers == ValueAnswers(old(Values(d)), ops)
    decreases |ops|
  {
    hide d.Valid, WF, Bag, Values, ValueStep, ValueAnswer, RunFits, Room, SizeFits, Few, Small;
    if ops == [] {
      return [];
    }
    ghost var s := d.Model();
    d.ModelOk();
    FitsFirst(s, ops);
    var answer := Apply(d, ops[0]);
    FitsRest(s, d.Model(), ops);
    var later := Run(d, ops[1..]);
    answers := [answer] + later;
  }

  // ----- what that says of a lookup -----

  /** The last thing that happened to a key: what was put under it, if it was not dropped. */
  function LastPut(before: Option<Item>, ops: seq<ValueOp>, key: Key): Option<Item>
    decreases |ops|
  {
    if ops == [] then before
    else
      var op := ops[|ops| - 1];
      var earlier := LastPut(before, ops[..|ops| - 1], key);
      match op
      case PutNew(k, val, vallen, _) => if k == key && earlier.None? then Some((val, vallen)) else earlier
      case Put(k, val, vallen, _) => if k == key then Some((val, vallen)) else earlier
      case Drop(k) => if k == key then None else earlier
      case _ => earlier
  }

  lemma {:induction false} RunEndsWith(m: map<Key, Item>, ops: seq<ValueOp>, op: ValueOp)
    ensures ValueRun(m, ops + [op]) == ValueStep(ValueRun(m, ops), op)
    decreases |ops|
  {
    if ops == [] {
      assert (ops + [op])[1..] == [];
    } else {
      assert (ops + [op])[1..] == ops[1..] + [op];
      RunEndsWith(ValueStep(m, ops[0]), ops[1..], op);
    }
  }

  /** After any run a key holds what was last put under it, and nothing if it was dropped since. */
  lemma {:induction false} LastPutWins(m: map<Key, Item>, ops: seq<ValueOp>, key: Key)
    ensures var r := ValueRun(m, ops);
            LastPut(if key in m then Some(m[key]) else None, ops, key) == if key in r then Some(r[key]) else None
    decreases |ops|
  {
    if ops != [] {
      var n := |ops| - 1;
      LastPutWins(m, ops[..n], key);
      assert ops == ops[..n] + [ops[n]];
      RunEndsWith(m, ops[..n], ops[n]);
    }
  }
}
