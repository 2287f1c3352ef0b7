/** The two structures of the connection cache as values: the dictionary's server
    types by name, and the multimap of names by type; how they stay in agreement,
    and which node of a type is picked. */
module TypeIndex {
  import opened Wrappers
  import opened Bytes

  datatype Pair = Pair(kind: Key, name: Key)

  /** types: the server type of each entry; pairs: the multimap, equal types in order of insertion. */
  datatype Index = Index(types: map<Key, Key>, pairs: seq<Pair>)

  /** Exactly one pair per entry, and no other. */
  ghost predicate Agrees(x: Index) {
    forall p: Pair :: multiset(x.pairs)[p] == if p.name in x.types && x.types[p.name] == p.kind then 1 else 0
  }

  /** The multimap without the first pair equal to p. */
  function Erase(pairs: seq<Pair>, p: Pair): (r: seq<Pair>)
    ensures multiset(r) == multiset(pairs) - multiset{p}
  {
    if pairs == [] then []
    else
      assert pairs == [pairs[0]] + pairs[1..];
      if pairs[0] == p then pairs[1..] else [pairs[0]] + Erase(pairs[1..], p)
  }

  lemma {:induction false} EraseAt(pairs: seq<Pair>, p: Pair, i: nat)
    requires i <= |pairs| && p !in pairs[..i] && (i < |pairs| ==> pairs[i] == p)
    ensures Erase(pairs, p) == if i < |pairs| then pairs[..i] + pairs[i + 1..] else pairs
  {
    if 0 < i {
      assert pairs == [pairs[0]] + pairs[1..];
      assert pairs[..i] == [pairs[0]] + pairs[1..][..i - 1];
      EraseAt(pairs[1..], p, i - 1);
    }
  }

  /** A call names a C string, and how many of its bytes make the key. */
  datatype Op =
    | Add(name: Key, nameLen: int, kind: Option<Key>, connLen: int)
    | Del(name: Key, nameLen: int)
  {
    predicate Readable() {
      nameLen <= |name|
    }

    function TheKey(): Key
      requires Readable()
    {
      if nameLen <= 0 then [] else name[..nameLen]
    }
  }

  /** The new index and whether the call succeeds; kind is None for a null connection. */
  function Apply(x: Index, op: Op): (Index, bool)
    requires op.Readable()
  {
    var key := op.TheKey();
    match op
    case Add(name, _, kind, connLen) =>
      if kind.None? || key == [] || connLen <= 0 || key in x.types then (x, false)
      else (Index(x.types[key := kind.value], x.pairs + [Pair(kind.value, name)]), true)
    case Del(name, nameLen) =>
      if nameLen < 0 || key !in x.types then (x, false)
      else (Index(x.types - {key}, Erase(x.pairs, Pair(x.types[key], name))), true)
  }

  /** A call that fails changes neither structure. A call that succeeds keeps them
      in agreement exactly when the name has its own length. */
  lemma AgreementExactly(x: Index, op: Op)
    requires Agrees(x) && op.Readable()
    ensures !Apply(x, op).1 ==> Apply(x, op).0 == x
    ensures Apply(x, op).1 ==> (Agrees(Apply(x, op).0) <==> op.nameLen == |op.name|)
  {
    hide Agrees, Erase;
    if Apply(x, op).1 {
      var key := op.TheKey();
      assert op.nameLen == |op.name| <==> key == op.name;
      match op {
        case Add(name, _, kind, _) =>
          if key == name {
            AddedAgrees(x, name, kind.value);
          } else {
            AddedForeign(x, key, name, kind.value);
          }
        case Del(name, _) =>
          if key == name {
            DeletedAgrees(x, name);
          } else {
            DeletedForeign(x, key, name);
          }
      }
    }
  }

  /** Adding succeeds exactly for a connection, a key that is not empty and new, and a
      positive size. Then the key has the connection's type, and the name is the last
      of that type's group. */
  lemma AddDoes(x: Index, name: Key, nameLen: int, kind: Option<Key>, connLen: int)
    requires nameLen <= |name|
    ensures var r := Apply(x, Add(name, nameLen, kind, connLen));
            && (r.1 <==> kind.Some? && nameLen > 0 && connLen > 0 && name[..nameLen] !in x.types)
            && (r.1 ==>
                  && r.0.types == x.types[name[..nameLen] := kind.value]
                  && forall t: Key :: Group(r.0.pairs, t) ==
                                      if t == kind.value then Group(x.pairs, t) + [name] else Group(x.pairs, t))
  {
    if kind.Some? {
      GroupAppends(x.pairs, Pair(kind.value, name));
    }
  }

  /** Deleting succeeds exactly for a key of an entry. Then the entry is gone, and the
      first mention of the name from the group of the entry's type. */
  lemma DelDoes(x: Index, name: Key, nameLen: int)
    requires nameLen <= |name|
    ensures var r := Apply(x, Del(name, nameLen));
            && (r.1 <==> nameLen >= 0 && name[..nameLen] in x.types)
            && (r.1 ==>
                  && r.0.types == x.types - {name[..nameLen]}
                  && forall t: Key :: Group(r.0.pairs, t) ==
                                      if t == x.types[name[..nameLen]] then WithoutFirst(Group(x.pairs, t), name)
                                      else Group(x.pairs, t))
  {
    if nameLen >= 0 && name[..nameLen] in x.types {
      GroupErases(x.pairs, Pair(x.types[name[..nameLen]], name));
    }
  }

  /** The names without the first one equal to name. */
  function WithoutFirst(names: seq<Key>, name: Key): seq<Key> {
    if names == [] then [] else if names[0] == name then names[1..] else [names[0]] + WithoutFirst(names[1..], name)
  }

  lemma {:induction false} GroupAppends(pairs: seq<Pair>, p: Pair)
    ensures forall t: Key ::
              Group(pairs + [p], t) == if t == p.kind then Group(pairs, t) + [p.name] else Group(pairs, t)
  {
    if pairs == [] {
      assert pairs + [p] == [p];
    } else {
      assert (pairs + [p])[1..] == pairs[1..] + [p];
      GroupAppends(pairs[1..], p);
    }
  }

  lemma {:induction false} GroupErases(pairs: seq<Pair>, p: Pair)
    ensures forall t: Key :: Group(Erase(pairs, p), t) ==
                             if t == p.kind then WithoutFirst(Group(pairs, t), p.name) else Group(pairs, t)
  {
    if pairs != [] {
      GroupErases(pairs[1..], p);
      forall t: Key
        ensures Group(Erase(pairs, p), t) ==
                if t == p.kind then WithoutFirst(Group(pairs, t), p.name) else Group(pairs, t)
      {
        GroupErasesHere(pairs, p, t);
      }
    }
  }

  lemma GroupErasesHere(pairs: seq<Pair>, p: Pair, t: Key)
    requires pairs != []
    requires Group(Erase(pairs[1..], p), t) ==
             if t == p.kind then WithoutFirst(Group(pairs[1..], t), p.name) else Group(pairs[1..], t)
    ensures Group(Erase(pairs, p), t) ==
            if t == p.kind then WithoutFirst(Group(pairs, t), p.name) else Group(pairs, t)
  {
    var rest := Group(pairs[1..], t);
    if pairs[0] == p {
      assert t == p.kind ==> ([p.name] + rest)[1..] == rest;
      assert [] + rest == rest;
    } else {
      var e := Erase(pairs[1..], p);
      assert ([pairs[0]] + e)[1..] == e;
      assert [] + rest == rest && [] + Group(e, t) == Group(e, t);
      if pairs[0].kind == t && t == p.kind {
        assert ([pairs[0].name] + rest)[1..] == rest;
      }
    }
  }

  lemma AddedForeign(x: Index, key: Key, name: Key, kind: Key)
    requires Agrees(x) && key !in x.types && key != name
    ensures !Agrees(Index(x.types[key := kind], x.pairs + [Pair(kind, name)]))
  {
    var p := Pair(kind, key);
    assert multiset(x.pairs + [Pair(kind, name)])[p] == multiset(x.pairs)[p] == 0;
  }

  lemma DeletedForeign(x: Index, key: Key, name: Key)
    requires Agrees(x) && key in x.types && key != name
    ensures !Agrees(Index(x.types - {key}, Erase(x.pairs, Pair(x.types[key], name))))
  {
    var p := Pair(x.types[key], key);
    assert multiset(Erase(x.pairs, Pair(x.types[key], name)))[p] == multiset(x.pairs)[p] == 1;
  }

  lemma AddedAgrees(x: Index, name: Key, kind: Key)
    requires Agrees(x) && name !in x.types
    ensures Agrees(Index(x.types[name := kind], x.pairs + [Pair(kind, name)]))
  {
  }

  lemma DeletedAgrees(x: Index, name: Key)
    requires Agrees(x) && name in x.types
    ensures Agrees(Index(x.types - {name}, Erase(x.pairs, Pair(x.types[name], name))))
  {
  }

  function Run(x: Index, ops: seq<Op>): Index
    requires forall op | op in ops :: op.Readable()
    decreases |ops|
  {
    if ops == [] then x else Run(Apply(x, ops[0]).0, ops[1..])
  }

  /** After any run of calls with names of their own length the two agree. */
  lemma {:induction false} RunKeepsAgreement(x: Index, ops: seq<Op>)
    requires Agrees(x) && forall op | op in ops :: op.nameLen == |op.name|
    ensures Agrees(Run(x, ops))
    decreases |ops|
  {
    if ops != [] {
      AgreementExactly(x, ops[0]);
      RunKeepsAgreement(Apply(x, ops[0]).0, ops[1..]);
    }
  }

  lemma EmptyAgrees()
    ensures Agrees(Index(map[], []))
  {
  }

  // ----- picking a node of a type -----

  /** The names of a type, as equal_range gives them. */
  function Group(pairs: seq<Pair>, kind: Key): seq<Key> {
    if pairs == [] then []
    else (if pairs[0].kind == kind then [pairs[0].name] else []) + Group(pairs[1..], kind)
  }

  lemma {:induction false} GroupHolds(pairs: seq<Pair>, kind: Key, name: Key)
    ensures name in Group(pairs, kind) <==> Pair(kind, name) in pairs
  {
    if pairs != [] {
      GroupHolds(pairs[1..], kind, name);
      assert pairs == [pairs[0]] + pairs[1..];
    }
  }

  function FirstIn(names: seq<Key>, live: set<Key>): Option<Key> {
    if names == [] then None else if names[0] in live then Some(names[0]) else FirstIn(names[1..], live)
  }

  /** The node at the offset if it is live, otherwise the first live one of the group. */
  function Picked(names: seq<Key>, offset: nat, live: set<Key>): Option<Key>
    requires offset < |names|
  {
    if names[offset] in live then Some(names[offset]) else FirstIn(names, live)
  }

  lemma {:induction false} FirstInIsFirst(names: seq<Key>, live: set<Key>)
    ensures FirstIn(names, live).None? <==> forall n | n in names :: n !in live
    ensures FirstIn(names, live).Some? ==>
              exists i :: 0 <= i < |names| && names[i] in live && Some(names[i]) == FirstIn(names, live)
                          && forall j | 0 <= j < i :: names[j] !in live
  {
    if names != [] {
      assert names == [names[0]] + names[1..];
      if names[0] !in live {
        FirstInIsFirst(names[1..], live);
        if FirstIn(names, live).Some? {
          var i :| 0 <= i < |names[1..]| && names[1..][i] in live && Some(names[1..][i]) == FirstIn(names[1..], live)
                   && forall j | 0 <= j < i :: names[1..][j] !in live;
          assert names[i + 1] == names[1..][i];
          forall j | 0 <= j < i + 1
            ensures names[j] !in live
          {
            assert j > 0 ==> names[j] == names[1..][j - 1];
          }
        }
      }
    }
  }

  /** With the two structures in agreement, a node is picked exactly when some
      entry of that type is live, and it is one of those. */
  lemma PickIsTotal(x: Index, kind: Key, offset: nat, live: set<Key>)
    requires Agrees(x) && live <= x.types.Keys && offset < |Group(x.pairs, kind)|
    ensures var picked := Picked(Group(x.pairs, kind), offset, live);
            && (picked.Some? <==> exists k :: k in live && x.types[k] == kind)
            && (picked.Some? ==> picked.value in live && x.types[picked.value] == kind)
  {
    var names := Group(x.pairs, kind);
    FirstInIsFirst(names, live);
    forall k | k in live
      ensures k in names <==> x.types[k] == kind
    {
      GroupHolds(x.pairs, kind, k);
      assert multiset(x.pairs)[Pair(kind, k)] == if x.types[k] == kind then 1 else 0;
    }
    assert names[offset] in names;
  }

  /** A type without entries has an empty group. */
  lemma GroupIsEmpty(x: Index, kind: Key)
    requires Agrees(x)
    ensures Group(x.pairs, kind) == [] <==> forall k | k in x.types :: x.types[k] != kind
  {
    var names := Group(x.pairs, kind);
    forall k | k in x.types
      ensures k in names <==> x.types[k] == kind
    {
      GroupHolds(x.pairs, kind, k);
      assert multiset(x.pairs)[Pair(kind, k)] == if x.types[k] == kind then 1 else 0;
    }
    if names != [] {
      GroupHolds(x.pairs, kind, names[0]);
      assert multiset(x.pairs)[Pair(kind, names[0])] > 0;
    }
  }
}
