/** connection_cache.cpp: connections by name in a dictionary, their names by
    server type in a multimap, and the picking of one connection of a type. */
module ConnectionCache {
  import opened Wrappers
  import opened Bytes
  import opened DictModel
  import opened DictOps
  import opened DictRuns
  import opened Dict
  import opened CharDictionary
  import opened ReturnCodes
  import opened TypeIndex

  const SEND_POLICY_BY_ID := 1

  class NetConnIndex {
    const serverType: Key
    var connDetail: object?

    constructor (serverType: Key, connDetail: object?)
      ensures this.serverType == serverType && this.connDetail == connDetail
    {
      this.serverType, this.connDetail := serverType, connDetail;
    }
  }

  /** Every entry holds a connection. */
  ghost predicate Typed(m: map<Key, Entry>)
    reads m.Values`val
  {
    forall k | k in m :: m[k].val is NetConnIndex
  }

  ghost function Types(m: map<Key, Entry>): map<Key, Key>
    requires Typed(m)
    reads m.Values`val
  {
    map k | k in m :: (m[k].val as NetConnIndex).serverType
  }

  /** The names whose connection may be picked. */
  ghost function Live(m: map<Key, Entry>, aliveOnly: bool): set<Key>
    requires Typed(m)
    reads m.Values`val, set k | k in m :: m[k].val as NetConnIndex
  {
    set k | k in m && (aliveOnly ==> (m[k].val as NetConnIndex).connDetail != null)
  }

  class ConnectionCache {
    const d: Dict
    var typeGroup: seq<Pair>

    ghost predicate Valid()
      reads this, d, d.arrays, d.entries
    {
      d.Valid() && Typed(Contents(d.Model()))
    }

    ghost function View(): Index
      requires Valid()
      reads this, d, d.arrays, d.entries
    {
      Index(Types(Contents(d.Model())), typeGroup)
    }

    /** The dictionary always gets the default size. */
    constructor (dictSize: int)
      ensures Valid() && fresh(d) && fresh(d.arrays) && fresh(d.entries)
      ensures View() == Index(map[], []) && Agrees(View()) && LeastPower(|d.t0|, 1024)
    {
      DefaultIsCreatable();
      var created := CharDictCreate(DEFAULT_DICT_SIZE);
      d, typeGroup := created, [];
      new;
      hide d.Valid, Contents, Bag, WF;
      d.ModelOk();
      EmptyAgrees();
    }

    method ReturnAsIndex(key: Key, ghost m: map<Key, Entry>) returns (conn: NetConnIndex?)
      requires Valid() && m == Contents(d.Model())
      modifies d, d.arrays, d.entries`next
      ensures Valid() && d.arrays == old(d.arrays) && d.entries == old(d.entries)
      ensures Contents(d.Model()) == m && Bag(d.Model()) == old(Bag(d.Model()))
      ensures conn != null <==> key in m
      ensures conn != null ==> m[key].val == conn
    {
      hide d.Valid, Contents, Bag, WF;
      ghost var s := d.Model();
      d.ModelOk();
      var found: object? := FindValue(key, d);
      d.ModelOk();
      ContentsGiveBag(s, d.Model());
      conn := if found == null then null else found as NetConnIndex;
    }

    /** The key of a name and a length. */
    static function KeyOf(name: Key, nameLen: int): Key
      requires nameLen <= |name|
    {
      if nameLen <= 0 then [] else name[..nameLen]
    }

    lemma EntryAdded(m: map<Key, Entry>, key: Key, e: Entry, conn: NetConnIndex)
      requires Typed(m) && e.val == conn
      ensures Typed(m[key := e]) && Types(m[key := e]) == Types(m)[key := conn.serverType]
      ensures Holds(m[key := e], key, conn, e.vallen) && DiffersAt(m, m[key := e], key)
    {
    }

    lemma EntryDropped(m: map<Key, Entry>, key: Key)
      requires Typed(m)
      ensures Typed(m - {key}) && Types(m - {key}) == Types(m) - {key}
    {
    }

    /** The connection itself is stored under the key. */
    static ghost predicate Holds(m: map<Key, Entry>, key: Key, conn: NetConnIndex?, connLen: int)
      reads m.Values`val, m.Values`vallen
    {
      key in m && m[key].val == conn && m[key].vallen == connLen
    }

    /** The entries of other keys are the same. */
    static ghost predicate DiffersAt(m: map<Key, Entry>, n: map<Key, Entry>, key: Key) {
      n.Keys == m.Keys + {key} && forall k | k in m && k != key :: n[k] == m[k]
    }

    method AddEntry(key: Key, conn: NetConnIndex?, connLen: int, ghost m: map<Key, Entry>) returns (ret: int)
      requires Valid() && Room(d.Model()) && m == Contents(d.Model())
      modifies d, d.arrays, d.entries`next
      ensures Valid() && fresh(d.arrays - old(d.arrays)) && fresh(d.entries - old(d.entries))
      ensures ret == RET_OK || ret == RET_FAILED
      ensures ret == RET_OK <==> conn != null && key != [] && connLen > 0 && key !in m
      ensures Types(Contents(d.Model())) ==
              if ret == RET_OK && conn != null then old(Types(m))[key := conn.serverType] else old(Types(m))
      ensures ret == RET_OK ==> Holds(Contents(d.Model()), key, conn, connLen) && DiffersAt(m, Contents(d.Model()), key)
      ensures ret == RET_FAILED ==> Contents(d.Model()) == m
    {
      hide d.Valid, Contents, Bag, WF, Room, Types, Holds, DiffersAt;
      d.ModelOk();
      ghost var e;
      ret, e := AddElement(key, conn, connLen, d);
      d.ModelOk();
      if ret == RET_OK {
        EntryAdded(m, key, e, conn);
      }
    }

    method DeleteEntry(key: Key, ghost m: map<Key, Entry>) returns (ret: int)
      requires Valid() && m == Contents(d.Model())
      modifies d, d.arrays, d.entries`next
      ensures Valid() && d.arrays == old(d.arrays) && d.entries == old(d.entries)
      ensures ret == if key in m then RET_OK else RET_FAILED
      ensures Types(Contents(d.Model())) == old(Types(m)) - {key} && Contents(d.Model()) == m - {key}
    {
      hide d.Valid, Contents, Bag, WF, Types;
      d.ModelOk();
      ret := DeleteElement(key, d);
      d.ModelOk();
      EntryDropped(m, key);
    }

    method Add(name: Key, nameLen: int, conn: NetConnIndex?, connLen: int) returns (ret: int)
      requires Valid() && Room(d.Model()) && nameLen <= |name|
      modifies `typeGroup, d, d.arrays, d.entries`next
      ensures Valid() && fresh(d.arrays - old(d.arrays)) && fresh(d.entries - old(d.entries))
      ensures var op := TypeIndex.Add(name, nameLen, if conn == null then None else Some(conn.serverType), connLen);
              (View(), ret == RET_OK) == Apply(old(View()), op)
      ensures ret == RET_OK || ret == RET_FAILED
      ensures ret == RET_OK ==>
                && Holds(Contents(d.Model()), KeyOf(name, nameLen), conn, connLen)
                && DiffersAt(old(Contents(d.Model())), Contents(d.Model()), KeyOf(name, nameLen))
      ensures ret == RET_FAILED ==> Contents(d.Model()) == old(Contents(d.Model()))
    {
      hide d.Valid, Contents, Bag, WF, Room, Typed, Holds, DiffersAt;
      d.ModelOk();
      ret := AddEntry(KeyOf(name, nameLen), conn, connLen, Contents(d.Model()));
      if ret < 0 {
        return RET_FAILED;
      }
      typeGroup := typeGroup + [Pair(conn.serverType, name)];
    }

    /** Walks the type's range and erases the first pair with that name. */
    method EraseName(kind: Key, name: Key)
      modifies `typeGroup
      ensures typeGroup == Erase(old(typeGroup), Pair(kind, name))
    {
      hide Erase;
      var i := 0;
      while i < |typeGroup|
        invariant 0 <= i <= |typeGroup| && typeGroup == old(typeGroup)
        invariant Pair(kind, name) !in typeGroup[..i]
      {
        if typeGroup[i].kind == kind && typeGroup[i].name == name {
          EraseAt(typeGroup, Pair(kind, name), i);
          typeGroup := typeGroup[..i] + typeGroup[i + 1..];
          return;
        }
        i := i + 1;
      }
      EraseAt(typeGroup, Pair(kind, name), i);
    }

    /** Takes the pair of the entry with that key and that name out of the index. */
    method EraseFromGroup(key: Key, name: Key, ghost m: map<Key, Entry>)
      requires Valid() && m == Contents(d.Model())
      modifies `typeGroup, d, d.arrays, d.entries`next
      ensures Valid() && d.arrays == old(d.arrays) && d.entries == old(d.entries)
      ensures Contents(d.Model()) == m && Types(m) == old(Types(m))
      ensures typeGroup == if key in m then Erase(old(typeGroup), Pair(old(Types(m))[key], name)) else old(typeGroup)
    {
      hide d.Valid, Contents, Bag, WF, Erase;
      var conn := ReturnAsIndex(key, m);
      d.ModelOk();
      if conn != null {
        EraseName(conn.serverType, name);
      }
    }

    method Del(name: Key, nameLen: int) returns (ret: int)
      requires Valid() && nameLen <= |name|
      modifies `typeGroup, d, d.arrays, d.entries`next
      ensures Valid() && d.arrays == old(d.arrays) && d.entries == old(d.entries)
      ensures (View(), ret == RET_OK) == Apply(old(View()), TypeIndex.Del(name, nameLen))
      ensures Contents(d.Model()) ==
              if ret == RET_OK then old(Contents(d.Model())) - {KeyOf(name, nameLen)} else old(Contents(d.Model()))
      ensures ret == RET_OK || ret == RET_FAILED
    {
      hide d.Valid, Contents, Bag, WF, Erase, Typed;
      d.ModelOk();
      if nameLen < 0 {
        return RET_FAILED;
      }
      ghost var m := Contents(d.Model());
      var key := KeyOf(name, nameLen);
      ghost var types := Types(m);
      assert key !in m ==> types - {key} == types;
      EraseFromGroup(key, name, m);
      ret := DeleteEntry(key, m);
    }

    lemma LiveNames(m: map<Key, Entry>, aliveOnly: bool)
      requires Typed(m)
      ensures Live(m, aliveOnly) <= Types(m).Keys
    {
    }

    /** Where the search starts: by the id, or by the next random number. */
    static function Offset(policy: int, id: int, rand: nat, count: nat): (r: nat)
      requires count > 0
      ensures r < count
    {
      (if policy == SEND_POLICY_BY_ID then (if id < 0 then -id else id) else rand) % count
    }

    method GroupOf(kind: Key) returns (names: seq<Key>)
      ensures names == Group(typeGroup, kind)
    {
      names := [];
      var i := |typeGroup|;
      while i > 0
        invariant 0 <= i <= |typeGroup| && names == Group(typeGroup[i..], kind)
      {
        i := i - 1;
        assert typeGroup[i..] == [typeGroup[i]] + typeGroup[i + 1..];
        names := (if typeGroup[i].kind == kind then [typeGroup[i].name] else []) + names;
      }
    }

    /** The node of that name when it may be picked, null when the search must go on. */
    method Usable(name: Key, aliveOnly: bool, ghost m: map<Key, Entry>) returns (conn: NetConnIndex?)
      requires Valid() && m == Contents(d.Model())
      modifies d, d.arrays, d.entries`next
      ensures Valid() && d.arrays == old(d.arrays) && d.entries == old(d.entries)
      ensures Contents(d.Model()) == m && Live(m, aliveOnly) == old(Live(m, aliveOnly))
      ensures conn != null <==> name in Live(m, aliveOnly)
      ensures conn != null ==> name in m && m[name].val == conn
    {
      hide d.Valid, Contents, Bag, WF;
      conn := ReturnAsIndex(name, m);
      if conn != null && aliveOnly && conn.connDetail == null {
        conn := null;
      }
    }

    /** The search: one try at the offset, and if that fails from the beginning. */
    method Search(names: seq<Key>, nodeOffset: nat, aliveOnly: bool, ghost m: map<Key, Entry>)
      returns (target: NetConnIndex?, ghost where: Option<Key>)
      requires Valid() && m == Contents(d.Model()) && nodeOffset < |names|
      modifies d, d.arrays, d.entries`next
      ensures Valid() && Contents(d.Model()) == m && Live(m, aliveOnly) == old(Live(m, aliveOnly))
      ensures where == Picked(names, nodeOffset, old(Live(m, aliveOnly)))
      ensures where.None? <==> target == null
      ensures where.Some? ==> where.value in m && target == m[where.value].val
    {
      hide d.Valid, Contents, Bag, WF, Live;
      d.ModelOk();
      target, where := null, None;
      var usesOffset, offsetCount, i := true, 0, 0;
      ghost var live := Live(m, aliveOnly);
      while i < |names|
        invariant Valid() && WF(d.Model()) && Contents(d.Model()) == m && Live(m, aliveOnly) == live
        invariant d.arrays == old(d.arrays) && d.entries == old(d.entries)
        invariant target == null && where == None
        invariant 0 <= i <= |names| && offsetCount == i
        invariant usesOffset ==> i <= nodeOffset
        invariant !usesOffset ==> names[nodeOffset] !in live && FirstIn(names[i..], live) == FirstIn(names, live)
        decreases usesOffset, |names| - i
      {
        var currentOffset := offsetCount;
        offsetCount := offsetCount + 1;
        if usesOffset && currentOffset < nodeOffset {
          i := i + 1;
          continue;
        }
        var conn := Usable(names[i], aliveOnly, m);
        d.ModelOk();
        if conn == null {
          if usesOffset {
            usesOffset := false;
            offsetCount := 0;
            if |names| > 1 {
              i := 0;
              assert names[0..] == names;
              continue;
            }
            assert names[1..] == [] && FirstIn(names, live) == FirstIn(names[1..], live);
            return;
          }
          i := i + 1;
          continue;
        }
        target, where := conn, Some(names[i]);
        return;
      }
    }

    /** No entry of the type may be picked. */
    static ghost predicate NoneLive(types: map<Key, Key>, live: set<Key>, kind: Key) {
      forall k | k in live && k in types :: types[k] != kind
    }

    static ghost predicate IsEntryOf(m: map<Key, Entry>, name: Option<Key>, conn: NetConnIndex)
      reads m.Values`val
    {
      name.Some? && name.value in m && m[name.value].val == conn
    }

    static ghost function PickedName(names: seq<Key>, policy: int, id: int, rand: nat, live: set<Key>): Option<Key> {
      if names == [] then None else Picked(names, Offset(policy, id, rand, |names|), live)
    }

    /** The node that has place r in its group is picked if it may be, or else the
        first of the group that may. */
    static ghost predicate PickedAt(m: map<Key, Entry>, names: seq<Key>, r: nat, live: set<Key>, target: NetConnIndex?)
      requires r < |names|
      reads m.Values`val
    {
      if names[r] in live then target != null && IsEntryOf(m, Some(names[r]), target)
      else if FirstIn(names, live).Some? then target != null && IsEntryOf(m, FirstIn(names, live), target)
      else target == null
    }

    /** By id a node keeps its place: it is the remainder of the id, whatever the
        random number. Any other policy takes the remainder of the random number. */
    lemma PlaceOfPolicy(m: map<Key, Entry>, names: seq<Key>, policy: int, id: int, rand: nat, live: set<Key>,
                        target: NetConnIndex?)
      requires var name := PickedName(names, policy, id, rand, live);
               if target == null then name.None? else IsEntryOf(m, name, target)
      ensures names == [] ==> target == null
      ensures names != [] && policy == 1 && id >= 0 ==> PickedAt(m, names, id % |names|, live, target)
      ensures names != [] && policy == 1 && id < 0 ==> PickedAt(m, names, -id % |names|, live, target)
      ensures names != [] && policy != 1 ==> PickedAt(m, names, rand % |names|, live, target)
    {
      hide FirstIn;
    }

    /** What may be picked, said of the connections themselves. */
    lemma LiveInWords(m: map<Key, Entry>, aliveOnly: bool, kind: Key)
      requires Typed(m)
      ensures NoneLive(Types(m), Live(m, aliveOnly), kind) <==>
              forall k | k in m && (m[k].val as NetConnIndex).serverType == kind ::
                aliveOnly && (m[k].val as NetConnIndex).connDetail == null
    {
      var types, live := Types(m), Live(m, aliveOnly);
      forall k | k in m
        ensures types[k] == (m[k].val as NetConnIndex).serverType
        ensures k !in live <==> aliveOnly && (m[k].val as NetConnIndex).connDetail == null
      {
      }
    }

    lemma PickedIsLive(m: map<Key, Entry>, aliveOnly: bool, names: seq<Key>, policy: int, id: int, rand: nat,
                       target: NetConnIndex)
      requires Typed(m) && IsEntryOf(m, PickedName(names, policy, id, rand, Live(m, aliveOnly)), target)
      ensures aliveOnly ==> target.connDetail != null
    {
      hide Offset;
      FirstInIsFirst(names, Live(m, aliveOnly));
    }

    method PickNamed(kind: Key, policy: int, id: int, rand: nat, aliveOnly: bool, ghost m: map<Key, Entry>)
      returns (target: NetConnIndex?)
      requires Valid() && m == Contents(d.Model()) && id != -0x8000_0000
      modifies d, d.arrays, d.entries`next
      ensures Valid() && Contents(d.Model()) == m
      ensures Live(m, aliveOnly) == old(Live(m, aliveOnly)) && Types(m) == old(Types(m))
      ensures var name := PickedName(Group(typeGroup, kind), policy, id, rand, Live(m, aliveOnly));
              if target == null then name.None? else IsEntryOf(m, name, target)
      ensures Agrees(Index(Types(m), typeGroup)) ==>
                (target == null <==> NoneLive(Types(m), Live(m, aliveOnly), kind))
    {
      hide d.Valid, Contents, Bag, WF, Agrees, Typed, Live, Types, Group, Picked;
      d.ModelOk();
      LiveNames(m, aliveOnly);
      var names := GroupOf(kind);
      ghost var x := Index(Types(m), typeGroup);
      if Agrees(x) {
        GroupIsEmpty(x, kind);
      }
      if |names| == 0 {
        return null;
      }
      if Agrees(x) {
        PickIsTotal(x, kind, Offset(policy, id, rand, |names|), Live(m, aliveOnly));
      }
      ghost var where;
      target, where := Search(names, Offset(policy, id, rand, |names|), aliveOnly, m);
    }

    /** Picks by the remainder of the id for policy 1, of the random number for the
        others, or the first node of the type that may be picked: any, or only those
        with a connection. If the index agrees with the dictionary, null is returned
        exactly when no node of the type may be picked. */
    method PickOneConnection(kind: Key, policy: int, id: int, rand: nat, aliveOnly: bool, ghost m: map<Key, Entry>)
      returns (target: NetConnIndex?)
      requires Valid() && m == Contents(d.Model()) && id != -0x8000_0000
      modifies d, d.arrays, d.entries`next
      ensures Valid() && Contents(d.Model()) == m
      ensures Live(m, aliveOnly) == old(Live(m, aliveOnly))
      ensures var names, live := Group(typeGroup, kind), Live(m, aliveOnly);
              if names == [] then target == null
              else if policy == 1 then PickedAt(m, names, (if id >= 0 then id else -id) % |names|, live, target)
              else PickedAt(m, names, rand % |names|, live, target)
      ensures target != null && aliveOnly ==> target.connDetail != null
      ensures Agrees(Index(old(Types(m)), typeGroup)) ==>
                (target == null <==>
                 forall k | k in m && (m[k].val as NetConnIndex).serverType == kind ::
                   aliveOnly && (m[k].val as NetConnIndex).connDetail == null)
    {
      hide d.Valid, Contents, Agrees, Typed, Live, Types, Group, PickedAt, PickedName, NoneLive, IsEntryOf;
      target := PickNamed(kind, policy, id, rand, aliveOnly, m);
      PlaceOfPolicy(m, Group(typeGroup, kind), policy, id, rand, Live(m, aliveOnly), target);
      LiveInWords(m, aliveOnly, kind);
      if target != null {
        PickedIsLive(m, aliveOnly, Group(typeGroup, kind), policy, id, rand, target);
      }
    }
  }
}
