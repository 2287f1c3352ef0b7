/** xml_helper.cpp: the recursive search with its shared depth counter. */
module XmlHelper {
  import opened Sequences
  import opened Wrappers
  import opened ReturnCodes
  import opened StringSplit
  import opened XmlTree

  /** The counter and the result vector every level of the recursion shares. */
  class Search {
    var depth: int
    var result: seq<Node>

    constructor ()
      ensures depth == -1 && result == []
    {
      depth, result := -1, [];
    }

    /** Adds what the rest of the path leads to from this node; the counter stays
        within the path and is as before on every exit. */
    method RecursivelyFindNodes(node: Node, names: Path)
      requires node.Element? && -1 <= depth < |names| - 1
      modifies this
      ensures depth == old(depth)
      ensures result == old(result) + Found(node, names[depth + 1..])
      decreases node
    {
      depth := depth + 1;
      ghost var path := names[depth..];
      var nameSatisfied := node.name == names[depth];
      var reachesFinalLevel := |names| - 1 == depth;
      if !nameSatisfied || reachesFinalLevel {
        if reachesFinalLevel && nameSatisfied {
          result := result + [node];
        }
        depth := depth - 1;
        return;
      }
      assert path[1..] == names[depth + 1..];
      var i := 0;
      while i < |node.children|
        invariant 0 <= i <= |node.children| && depth == old(depth) + 1
        invariant result + FoundInAll(node.children[i..], path[1..]) == old(result) + Found(node, path)
      {
        ghost var rest := FoundInAll(node.children[i + 1..], path[1..]);
        assert node.children[i..][1..] == node.children[i + 1..];
        Assoc(result, Found(node.children[i], path[1..]), rest);
        if node.children[i].Element? {
          RecursivelyFindNodes(node.children[i], names);
        }
        i := i + 1;
      }
      depth := depth - 1;
    }
  }

  /** Splits the path and searches, from the node itself or from its children. */
  method GenerallyFindNodes(node: Node, path: string, pathContainsNode: bool) returns (ret: int, result: seq<Node>)
    requires node.Element?
    ensures path == "" ==> ret == -1006 && result == []
    ensures path != "" && Split(path, '/') == [] ==> ret == -1 && result == []
    ensures Split(path, '/') != [] ==>
              var names := Split(path, '/');
              && ret == (if result == [] then -1014 else 0)
              && result ==
                 if pathContainsNode then Levels(Named([node], names[0]), names[1..]) else Levels([node], names)
  {
    result := [];
    if |path| <= 0 {
      return INVALID_PARAM_VALUE, [];
    }
    var names := Split(path, '/');
    if |names| == 0 {
      return CA_RET_GENERAL_FAILURE, [];
    }
    var search := new Search();
    if pathContainsNode {
      search.RecursivelyFindNodes(node, names);
      assert names[0..] == names;
      NodeIsLevels(node, names);
    } else {
      var i := 0;
      while i < |node.children|
        invariant 0 <= i <= |node.children| && fresh(search)
        invariant search.result + FoundInAll(node.children[i..], names) == FoundInAll(node.children, names)
      {
        search.depth := -1;
        assert names[0..] == names && node.children[i..][1..] == node.children[i + 1..];
        Assoc(search.result, Found(node.children[i], names), FoundInAll(node.children[i + 1..], names));
        if node.children[i].Element? {
          search.RecursivelyFindNodes(node.children[i], names);
        }
        i := i + 1;
      }
      ChildrenAreLevels(node, names);
    }
    result := search.result;
    ret := if result == [] then OBJECT_DOES_NOT_EXIST else CA_RET_OK;
  }

  /** A relative path starts at the children of the node. */
  method FindNodes(parent: Node, relativePath: string) returns (ret: int, result: seq<Node>)
    requires parent.Element?
    ensures relativePath == "" || relativePath[0] == '/' ==> ret == -1003 && result == []
    ensures relativePath != "" && relativePath[0] != '/' ==>
              && result == Levels([parent], Split(relativePath, '/'))
              && ret == if result == [] then -1014 else 0
  {
    if relativePath == "" || relativePath[0] == '/' {
      return INVALID_PATH, [];
    }
    NothingToSplit(relativePath, '/');
    ret, result := GenerallyFindNodes(parent, relativePath, false);
  }

  /** An absolute path starts at the root itself; the result holds the elements whose
      names from the root are the path, in document order. */
  method FindNodesInDocument(root: Option<Node>, absolutePath: string) returns (ret: int, result: seq<Node>)
    requires root.Some? ==> root.value.Element?
    ensures absolutePath == "" || absolutePath[0] != '/' ==> ret == -1003 && result == []
    ensures absolutePath != "" && absolutePath[0] == '/' ==>
              var names := Split(absolutePath, '/');
              if root.None? then ret == -1014 && result == []
              else if names == [] then ret == -1 && result == []
              else
                && result == At(Walk(root.value, []), names)
                && ret == if result == [] then -1014 else 0
  {
    if absolutePath == "" || absolutePath[0] != '/' {
      return INVALID_PATH, [];
    }
    if root.None? {
      return OBJECT_DOES_NOT_EXIST, [];
    }
    ret, result := GenerallyFindNodes(root.value, absolutePath, true);
    var names := Split(absolutePath, '/');
    if names != [] {
      NodeIsLevels(root.value, names);
      FoundHere(root.value, [], names);
      assert [] + names == names;
    }
  }
}
