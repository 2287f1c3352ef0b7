/** The dictionary's iterators field over runs with many iterators. */
module IteratorCount {
  import opened Wrappers
  import opened DictModel
  import opened DictIteration
  import opened DictRuns

  /** A dictionary and the iterators the program holds on it. */
  datatype Holders = Holders(s: State, its: map<nat, It>)

  datatype HolderEvent =
    | Open(id: nat, safe: bool)
    | CallNext(id: nat)
    | Release(id: nat)
    | Operate(op: Op)

  ghost predicate Callable(it: It) {
    it.table <= 1 && -1 <= it.index && (it.entry.Some? ==> 0 <= it.index)
  }

  ghost predicate HolderLegal(h: Holders, ev: HolderEvent) {
    && WF(h.s)
    && match ev
       case Open(id, _) => id !in h.its
       case CallNext(id) => id in h.its && Callable(h.its[id])
       case Release(id) => id in h.its
       case Operate(op) => Allowed(h.s, op)
  }

  ghost function HolderStep(h: Holders, ev: HolderEvent): Holders
    requires HolderLegal(h, ev)
  {
    match ev
    case Open(id, safe) => h.(its := h.its[id := NewIt(safe)])
    case CallNext(id) =>
      var r := Next(h.s, h.its[id]);
      Holders(r.0, h.its[id := r.1])
    case Release(id) =>
      var it := h.its[id];
      Holders(if it.safe && it.Started() then h.s.(iterators := h.s.iterators - 1) else h.s, h.its - {id})
    case Operate(op) => h.(s := Step(h.s, op))
  }

  ghost predicate Running(it: It) {
    it.safe && it.Started()
  }

  ghost function StartedSafe(its: map<nat, It>): set<nat> {
    set id | id in its && Running(its[id])
  }

  /** The counter counts the safe iterators started and not yet released. */
  ghost predicate Counts(h: Holders) {
    h.s.iterators == |StartedSafe(h.its)|
  }

  lemma {:induction false} VisitKeeps(s: State, it: It)
    requires it.table <= 1 && 0 <= it.index && it.entry.None?
    ensures Visit(s, it).0 == s && Visit(s, it).1.safe == it.safe && Visit(s, it).1.Started()
    decreases 2 - it.table, Ahead(s, it), 1
  {
    var t := TableOf(s, it.table);
    if it.index < |t| && t[it.index] == [] {
      NextCounts(s, it);
    }
  }

  lemma {:induction false} NextCounts(s: State, it: It)
    requires Callable(it)
    ensures Next(s, it).0 == Counted(s, it)
    ensures Next(s, it).1.safe == it.safe && Next(s, it).1.Started()
    decreases 2 - it.table, Ahead(s, it), if it.entry.Some? then 1 else 0
  {
    var i := it.index + 1;
    if it.entry.Some? {
      if it.nextEntry.None? {
        NextCounts(s, it.(entry := None));
      }
    } else if i < Signed(|TableOf(s, it.table)|) {
      VisitKeeps(Counted(s, it), it.(index := i));
    } else if s.Rehashing() && it.table == 0 {
      VisitKeeps(Counted(s, it), it.(table := 1, index := 0));
    }
  }

  lemma PutIterator(its: map<nat, It>, id: nat, it: It)
    requires id in its && Running(its[id]) ==> Running(it)
    ensures |StartedSafe(its[id := it])| ==
            |StartedSafe(its)| + if Running(it) && !(id in its && Running(its[id])) then 1 else 0
  {
    hide Running;
    if Running(it) {
      assert StartedSafe(its[id := it]) == StartedSafe(its) + {id};
    } else {
      assert StartedSafe(its[id := it]) == StartedSafe(its);
    }
  }

  lemma DropIterator(its: map<nat, It>, id: nat)
    requires id in its
    ensures |StartedSafe(its - {id})| == |StartedSafe(its)| - if Running(its[id]) then 1 else 0
  {
    assert StartedSafe(its - {id}) == StartedSafe(its) - {id};
  }

  lemma StepCounts(h: Holders, ev: HolderEvent)
    requires HolderLegal(h, ev) && Counts(h)
    ensures Counts(HolderStep(h, ev))
  {
    hide WF, StartedSafe, Next, Step, Allowed;
    match ev
    case Open(id, safe) =>
      PutIterator(h.its, id, NewIt(safe));
    case CallNext(id) =>
      NextCounts(h.s, h.its[id]);
      PutIterator(h.its, id, Next(h.s, h.its[id]).1);
    case Release(id) =>
      DropIterator(h.its, id);
    case Operate(op) =>
  }

  ghost predicate HoldersLegal(h: Holders, evs: seq<HolderEvent>)
    decreases |evs|
  {
    evs == [] || (HolderLegal(h, evs[0]) && HoldersLegal(HolderStep(h, evs[0]), evs[1..]))
  }

  ghost function HoldersRun(h: Holders, evs: seq<HolderEvent>): Holders
    requires HoldersLegal(h, evs)
    decreases |evs|
  {
    if evs == [] then h else HoldersRun(HolderStep(h, evs[0]), evs[1..])
  }

  /** In every run the iterators field equals the number of safe iterators
      started and not yet released. */
  lemma {:induction false} RunCounts(h: Holders, evs: seq<HolderEvent>)
    requires HoldersLegal(h, evs) && Counts(h)
    ensures Counts(HoldersRun(h, evs))
    decreases |evs|
  {
    if evs != [] {
      StepCounts(h, evs[0]);
      RunCounts(HolderStep(h, evs[0]), evs[1..]);
    }
  }
}
