/** XML elements as values, and three ways to say which of them a path of names
    leads to: depth first, level by level, and by each element's own path. */
module XmlTree {
  import opened Sequences

  /** Text, comments and the like are passed over by the search. */
  datatype Node =
    | Element(id: nat, name: string, children: seq<Node>)
    | Other(content: string)

  type Path = seq<string>

  /** Depth first, as the recursion goes. */
  function Found(node: Node, path: Path): seq<Node>
    requires path != []
    decreases |path|, 0
  {
    if node.Other? || node.name != path[0] then []
    else if |path| == 1 then [node]
    else FoundInAll(node.children, path[1..])
  }

  function FoundInAll(nodes: seq<Node>, path: Path): seq<Node>
    requires path != []
    decreases |path|, |nodes| + 1
  {
    if nodes == [] then [] else Found(nodes[0], path) + FoundInAll(nodes[1..], path)
  }

  // ----- level by level -----

  function Named(nodes: seq<Node>, name: string): seq<Node> {
    if nodes == [] then []
    else (if nodes[0].Element? && nodes[0].name == name then [nodes[0]] else []) + Named(nodes[1..], name)
  }

  /** The children of all these nodes that have the name. */
  function NextLevel(nodes: seq<Node>, name: string): seq<Node> {
    if nodes == [] then []
    else (if nodes[0].Element? then Named(nodes[0].children, name) else []) + NextLevel(nodes[1..], name)
  }

  function Levels(nodes: seq<Node>, path: Path): seq<Node>
    decreases |path|
  {
    if path == [] then nodes else Levels(NextLevel(nodes, path[0]), path[1..])
  }

  lemma {:induction false} NextLevelConcat(a: seq<Node>, b: seq<Node>, name: string)
    ensures NextLevel(a + b, name) == NextLevel(a, name) + NextLevel(b, name)
  {
    if a == [] {
      assert a + b == b;
    } else {
      NextLevelConcat(a[1..], b, name);
      assert (a + b)[1..] == a[1..] + b && (a + b)[0] == a[0];
      Assoc(if a[0].Element? then Named(a[0].children, name) else [], NextLevel(a[1..], name), NextLevel(b, name));
    }
  }

  lemma {:induction false} LevelsConcat(a: seq<Node>, b: seq<Node>, path: Path)
    ensures Levels(a + b, path) == Levels(a, path) + Levels(b, path)
    decreases |path|
  {
    if path != [] {
      NextLevelConcat(a, b, path[0]);
      LevelsConcat(NextLevel(a, path[0]), NextLevel(b, path[0]), path[1..]);
    }
  }

  lemma {:induction false} LevelsOfNone(path: Path)
    ensures Levels([], path) == []
    decreases |path|
  {
    if path != [] {
      LevelsOfNone(path[1..]);
    }
  }

  /** Going down each node of the first level in turn gives the same nodes, in the
      same order, as taking all children and filtering by name, level after level. */
  lemma {:induction false} DepthFirstIsLevelByLevel(nodes: seq<Node>, path: Path)
    requires path != []
    ensures FoundInAll(nodes, path) == Levels(Named(nodes, path[0]), path[1..])
    decreases |path|, |nodes|
  {
    if nodes == [] {
      LevelsOfNone(path[1..]);
    } else {
      var node := nodes[0];
      DepthFirstIsLevelByLevel(nodes[1..], path);
      LevelsConcat(if node.Element? && node.name == path[0] then [node] else [], Named(nodes[1..], path[0]), path[1..]);
      if node.Element? && node.name == path[0] {
        if |path| > 1 {
          DepthFirstIsLevelByLevel(node.children, path[1..]);
          assert NextLevel([node], path[1]) == Named(node.children, path[1]);
        }
      } else {
        LevelsOfNone(path[1..]);
      }
    }
  }

  /** From the children of one node down. */
  lemma ChildrenAreLevels(node: Node, path: Path)
    requires node.Element? && path != []
    ensures FoundInAll(node.children, path) == Levels([node], path)
  {
    DepthFirstIsLevelByLevel(node.children, path);
    assert NextLevel([node], path[0]) == Named(node.children, path[0]);
  }

  /** From one node itself down. */
  lemma NodeIsLevels(node: Node, path: Path)
    requires node.Element? && path != []
    ensures Found(node, path) == Levels(Named([node], path[0]), path[1..])
  {
    DepthFirstIsLevelByLevel([node], path);
    assert FoundInAll([node], path) == Found(node, path) + FoundInAll([], path);
  }

  // ----- every element's own path, in document order -----

  function Walk(node: Node, prefix: Path): seq<(Path, Node)>
    decreases node, 0
  {
    if node.Other? then []
    else [(prefix + [node.name], node)] + WalkAll(node.children, prefix + [node.name])
  }

  function WalkAll(nodes: seq<Node>, prefix: Path): seq<(Path, Node)>
    decreases nodes, 1
  {
    if nodes == [] then [] else Walk(nodes[0], prefix) + WalkAll(nodes[1..], prefix)
  }

  function At(walk: seq<(Path, Node)>, path: Path): seq<Node> {
    if walk == [] then [] else (if walk[0].0 == path then [walk[0].1] else []) + At(walk[1..], path)
  }

  lemma {:induction false} AtConcat(a: seq<(Path, Node)>, b: seq<(Path, Node)>, path: Path)
    ensures At(a + b, path) == At(a, path) + At(b, path)
  {
    if a == [] {
      assert a + b == b;
    } else {
      AtConcat(a[1..], b, path);
      assert (a + b)[1..] == a[1..] + b && (a + b)[0] == a[0];
      Assoc(if a[0].0 == path then [a[0].1] else [], At(a[1..], path), At(b, path));
    }
  }

  /** Beneath a prefix all paths are longer and begin with it. */
  lemma {:induction false} NothingElsewhere(nodes: seq<Node>, prefix: Path, path: Path)
    requires !(prefix < path)
    ensures At(WalkAll(nodes, prefix), path) == []
    decreases nodes
  {
    if nodes != [] {
      AtConcat(Walk(nodes[0], prefix), WalkAll(nodes[1..], prefix), path);
      NothingElsewhere(nodes[1..], prefix, path);
      if nodes[0].Element? {
        var own := prefix + [nodes[0].name];
        assert own < path ==> prefix < path;
        NothingElsewhere(nodes[0].children, own, path);
      }
    }
  }

  /** The search finds exactly the elements whose names from the top are the path,
      in document order. */
  lemma {:induction false} FoundIsByOwnPath(nodes: seq<Node>, prefix: Path, path: Path)
    requires path != []
    ensures FoundInAll(nodes, path) == At(WalkAll(nodes, prefix), prefix + path)
    decreases nodes
  {
    if nodes != [] {
      var node := nodes[0];
      AtConcat(Walk(node, prefix), WalkAll(nodes[1..], prefix), prefix + path);
      FoundIsByOwnPath(nodes[1..], prefix, path);
      if node.Element? {
        FoundHere(node, prefix, path);
      }
    }
  }

  lemma {:induction false} FoundHere(node: Node, prefix: Path, path: Path)
    requires path != [] && node.Element?
    ensures Found(node, path) == At(Walk(node, prefix), prefix + path)
    decreases node
  {
    var own := prefix + [node.name];
    var rest := WalkAll(node.children, own);
    AtConcat([(own, node)], rest, prefix + path);
    assert (prefix + path)[|prefix|] == path[0] && own[|prefix|] == node.name;
    if node.name == path[0] {
      if |path| == 1 {
        assert path == [node.name];
        NothingElsewhere(node.children, own, prefix + path);
      } else {
        assert prefix + path == own + path[1..];
        FoundIsByOwnPath(node.children, own, path[1..]);
      }
    } else {
      NothingElsewhere(node.children, own, prefix + path);
    }
  }
}
