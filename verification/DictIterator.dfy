/** dict_iterator: the iterator structure and dict_next on the linked tables. */
module DictIterator {
  import opened Wrappers
  import opened DictModel
  import opened DictIteration
  import opened Dict

  class DictIterator {
    const d: Dict
    var table: nat
    var index: int
    const safe: bool
    var entry: Entry?
    var nextEntry: Entry?

    /** dict_get_iterator and dict_get_safe_iterator */
    constructor (d: Dict, safe: bool)
      ensures this.d == d && View() == NewIt(safe)
    {
      this.d, this.safe := d, safe;
      table, index, entry, nextEntry := 0, -1, null, null;
    }

    ghost function View(): It
      reads this
    {
      It(table, index, safe, ToOption(entry), ToOption(nextEntry))
    }

    /** Any later entry of a linked chain is the successor its next field shows. */
    lemma NextIsSuccessor(head: Entry?, c: Chain, e: Entry)
      requires ChainLinked(head, c) && e in c
      ensures ToOption(e.next) == Successor(c, e)
      ensures e.next != null ==> e.next in c
    {
      var j := SuffixPosition(c, e);
      ToPositions(head, c);
    }

    /** The next field of a stored entry is what the tables link it to. */
    lemma NextIsLink(e: Entry)
      requires d.Valid() && e in Bag(d.Model())
      ensures ToOption(e.next) == Link(d.Model(), e)
      ensures e.next != null ==> e.next in Bag(d.Model())
    {
      ghost var s := d.Model();
      d.ModelOk();
      assert e in Flat(s.t0) || e in Flat(s.t1);
      InSlot(s.t0, e);
      InSlot(s.t1, e);
      ghost var table := if e in Flat(s.t0) then 0 else 1;
      ghost var i := Slot(e.key, |TableOf(s, table)|);
      ghost var c := TableOf(s, table)[i];
      LinkInChain(s, table, i, e);
      if table == 0 {
        NextIsSuccessor(d.ht0.table[i], c, e);
      } else {
        NextIsSuccessor(d.ht1.table[i], c, e);
      }
      if e.next != null {
        InTableInBag(s, table, i, e.next);
      }
    }

    /** The saved successor of the entry about to be returned. */
    method SaveNext()
      requires d.Valid() && entry != null && entry in Bag(d.Model())
      modifies this`nextEntry
      ensures (d.Model(), View(), Some(entry)) == Return(d.Model(), old(View()).(entry := None), entry)
    {
      hide d.Valid, Bag, Link;
      NextIsLink(entry);
      nextEntry := entry.next;
    }

    /** Takes the head of the current bucket. */
    method LoadHead()
      requires d.Valid() && entry == null && table <= 1 && 0 <= index < |TableOf(d.Model(), table)|
      modifies this`entry, this`nextEntry
      ensures entry != null ==> (d.Model(), View(), ToOption(entry)) == Visit(d.Model(), old(View()))
      ensures entry == null ==> View() == old(View()) && Visit(d.Model(), View()) == Next(d.Model(), View())
    {
      hide Link, Next;
      ghost var c := TableOf(d.Model(), table)[index];
      var ht := if table == 0 then d.ht0 else d.ht1;
      assert ChainLinked(ht.table[index], c);
      entry := ht.table[index];
      if entry != null {
        InTableInBag(d.Model(), table, index, entry);
        SaveNext();
      }
    }

    /** Counts a safe iterator on its first call. */
    method CountStart()
      requires d.Valid()
      modifies d`iterators
      ensures d.Valid() && d.Model() == Counted(old(d.Model()), View())
    {
      hide d.Valid;
      if safe && index == -1 && table == 0 {
        d.SetIterators(d.iterators + 1);
      }
    }

    lemma TablesThere()
      requires d.Valid()
      ensures d.IsRehashing() ==> d.t1 != []
      ensures |d.t0| <= MAX_BUCKETS && |d.t1| <= MAX_BUCKETS
    {
    }

    /** Moves on to the next bucket, if there is one. */
    method NextBucket() returns (more: bool)
      requires d.Valid() && table <= 1 && -1 <= index && entry == null
      modifies this`table, this`index, d`iterators
      ensures d.Valid() && entry == null && table <= 1
      ensures more ==>
                && 0 <= index < |TableOf(d.Model(), table)|
                && Visit(d.Model(), View()) == Next(old(d.Model()), old(View()))
                && (table > old(table) || (table == old(table) && index == old(index) + 1))
      ensures !more ==> (d.Model(), View(), None) == Next(old(d.Model()), old(View()))
    {
      hide d.Valid, WF, Bag, Visit;
      d.UsedIsStored();
      TablesThere();
      CountStart();
      index := index + 1;
      more := true;
      if index >= Signed(if table == 0 then d.ht0.size else d.ht1.size) {
        if d.IsRehashing() && table == 0 {
          table := table + 1;
          index := 0;
        } else {
          more := false;
        }
      }
    }

    /** dict_next; the saved successor must not have been deleted. */
    method DictNext() returns (e: Entry?)
      requires d.Valid() && Alive(d.Model(), View())
      modifies this, d`iterators
      ensures d.Valid()
      ensures (d.Model(), View(), ToOption(e)) == Next(old(d.Model()), old(View()))
    {
      hide d.Valid, Visit, Bag, Link;
      while true
        invariant d.Valid() && Alive(d.Model(), View())
        invariant Next(d.Model(), View()) == Next(old(d.Model()), old(View()))
        decreases 2 - table, Ahead(d.Model(), View()), if entry != null then 1 else 0
      {
        if entry == null {
          var more := NextBucket();
          if !more {
            return null;
          }
          LoadHead();
          if entry != null {
            return entry;
          }
        } else {
          entry := nextEntry;
          if entry != null {
            SaveNext();
            return entry;
          }
        }
      }
    }

    /** dict_release_iterator */
    method Release()
      requires d.Valid()
      modifies d`iterators
      ensures d.Valid()
      ensures d.Model() == old(d.Model()).(iterators := old(d.iterators) - if safe && View().Started() then 1 else 0)
    {
      hide d.Valid;
      if safe && !(index == -1 && table == 0) {
        d.SetIterators(d.iterators - 1);
      }
    }
  }
}
