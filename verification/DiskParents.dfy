/**
 Resolving a block device to the physical drives beneath it: a search through partitions and
 stacked devices, cycles and diamonds included, that shares one set of visited names.
 */
module DiskParents {
  import opened Options

  type Name = string

  /** A partition has one parent; anything else has slaves, if they can be listed. */
  datatype Device = Partition(parent: Name) | Stacked(slaves: Option<seq<Name>>)

  type Graph = map<Name, Device>

  function Below(g: Graph, name: Name): seq<Name> {
    if name !in g then []
    else
      match g[name]
      case Partition(parent) => [parent]
      case Stacked(slaves) => if slaves.Some? then slaves.value else []
  }

  /** One step of the search; it never passes through a drive. */
  ghost predicate Edge(g: Graph, drives: set<Name>, a: Name, b: Name) {
    a !in drives && b in Below(g, a)
  }

  ghost predicate Path(g: Graph, drives: set<Name>, p: seq<Name>)
    decreases |p|
  {
    p != [] && (|p| > 1 ==> Path(g, drives, p[..|p| - 1]) && Edge(g, drives, p[|p| - 2], p[|p| - 1]))
  }

  ghost predicate PathTo(g: Graph, drives: set<Name>, p: seq<Name>, from: Name, to: Name) {
    Path(g, drives, p) && p[0] == from && p[|p| - 1] == to
  }

  ghost predicate Reaches(g: Graph, drives: set<Name>, from: Name, to: Name) {
    exists p :: PathTo(g, drives, p, from, to)
  }

  lemma ReachesItself(g: Graph, drives: set<Name>, a: Name)
    ensures Reaches(g, drives, a, a)
  {
    assert PathTo(g, drives, [a], a, a);
  }

  lemma ReachesOneMore(g: Graph, drives: set<Name>, from: Name, a: Name, b: Name)
    requires Reaches(g, drives, from, a) && Edge(g, drives, a, b)
    ensures Reaches(g, drives, from, b)
  {
    var p :| PathTo(g, drives, p, from, a);
    var q := p + [b];
    assert q[..|q| - 1] == p;
    assert PathTo(g, drives, q, from, b);
  }

  /** Whatever is beneath a name of this set is in it too, drives apart. */
  ghost predicate Closed(g: Graph, drives: set<Name>, part: set<Name>, whole: set<Name>) {
    forall a, b | a in part && Edge(g, drives, a, b) :: b in whole
  }

  lemma {:induction false} ClosedContainsPaths(g: Graph, drives: set<Name>, s: set<Name>, p: seq<Name>)
    requires Closed(g, drives, s, s) && Path(g, drives, p) && p[0] in s
    ensures p[|p| - 1] in s
    decreases |p|
  {
    if |p| > 1 {
      ClosedContainsPaths(g, drives, s, p[..|p| - 1]);
    }
  }

  ghost function Nodes(g: Graph): (s: set<Name>)
    ensures forall a :: a in g ==> a in s
    ensures forall a, b | b in Below(g, a) :: b in s
  {
    g.Keys + set a, b | a in g && b in Below(g, a) :: b
  }

  /** Python's one `visited` set, handed down by reference. */
  class Visited {
    var names: set<Name>
    constructor ()
      ensures names == {}
    {
      names := {};
    }
  }

  /** What one call has done: it reached the new names, left none open, and found the new drives. */
  ghost predicate Searched(g: Graph, drives: set<Name>, root: Name, before: set<Name>, after: set<Name>, found: set<Name>) {
    && before <= after && found == (after - before) * drives
    && Closed(g, drives, after - before, after)
    && forall x | x in after - before :: Reaches(g, drives, root, x)
  }

  /** In the middle of a name's slaves: everything but the name itself is done. */
  ghost predicate Searching(g: Graph, drives: set<Name>, root: Name, name: Name,
                            before: set<Name>, after: set<Name>, found: set<Name>)
  {
    Searched(g, drives, root, before + {name}, after, found)
  }

  lemma SearchSlave(g: Graph, drives: set<Name>, root: Name, name: Name,
                    before: set<Name>, mid: set<Name>, after: set<Name>, found: set<Name>, more: set<Name>)
    requires Searching(g, drives, root, name, before, mid, found) && Searched(g, drives, root, mid, after, more)
    ensures Searching(g, drives, root, name, before, after, found + more)
  {
    hide Reaches, Edge;
  }

  lemma SearchEnds(g: Graph, drives: set<Name>, root: Name, name: Name,
                   before: set<Name>, after: set<Name>, found: set<Name>)
    requires Searching(g, drives, root, name, before, after, found) && name !in drives && name !in before
    requires Reaches(g, drives, root, name) && forall b | b in Below(g, name) :: b in after
    ensures Searched(g, drives, root, before, after, found)
  {
    hide Reaches;
  }

  lemma DriveFound(g: Graph, drives: set<Name>, root: Name, name: Name, before: set<Name>)
    requires name in drives && name !in before && Reaches(g, drives, root, name)
    ensures Searched(g, drives, root, before, before + {name}, {name})
  {
    hide Reaches;
  }

  /** The recursive search; `root` is the device the whole search began from. */
  method Search(g: Graph, drives: set<Name>, name: Name, visited: Visited, ghost root: Name, ghost nodes: set<Name>)
    returns (found: set<Name>)
    requires name in nodes && visited.names <= nodes && Nodes(g) <= nodes && Reaches(g, drives, root, name)
    modifies visited
    ensures name in visited.names && visited.names <= nodes
    ensures Searched(g, drives, root, old(visited.names), visited.names, found)
    decreases nodes - visited.names
  {
    hide Reaches, Closed, Searched, Nodes;
    if name in visited.names {
      assert Searched(g, drives, root, visited.names, visited.names, {}) by { NothingNew(g, drives, root, visited.names); }
      return {};
    }
    ghost var before := visited.names;
    visited.names := visited.names + {name};
    if name in drives {
      DriveFound(g, drives, root, name, before);
      return {name};
    }
    NothingNew(g, drives, root, visited.names);
    if name in g && g[name].Partition? {
      ReachesOneMore(g, drives, root, name, g[name].parent);
      ghost var mid := visited.names;
      found := Search(g, drives, g[name].parent, visited, root, nodes);
      SearchSlave(g, drives, root, name, before, mid, visited.names, {}, found);
      assert {} + found == found;
      Grew(g, drives, root, mid, visited.names, found);
      SearchEnds(g, drives, root, name, before, visited.names, found);
      return;
    }
    found := {};
    var slaves := if name in g && g[name].slaves.Some? then g[name].slaves.value else [];
    for i := 0 to |slaves|
      invariant before + {name} <= visited.names <= nodes
      invariant forall j | 0 <= j < i :: slaves[j] in visited.names
      invariant Searching(g, drives, root, name, before, visited.names, found)
    {
      assert slaves[i] in Below(g, name);
      ReachesOneMore(g, drives, root, name, slaves[i]);
      ghost var mid := visited.names;
      var more := Search(g, drives, slaves[i], visited, root, nodes);
      SearchSlave(g, drives, root, name, before, mid, visited.names, found, more);
      assert mid <= visited.names by { Grew(g, drives, root, mid, visited.names, more); }
      found := found + more;
    }
    SearchEnds(g, drives, root, name, before, visited.names, found);
  }

  lemma Grew(g: Graph, drives: set<Name>, root: Name, before: set<Name>, after: set<Name>, found: set<Name>)
    requires Searched(g, drives, root, before, after, found)
    ensures before <= after
  {
  }

  lemma NothingNew(g: Graph, drives: set<Name>, root: Name, names: set<Name>)
    ensures Searched(g, drives, root, names, names, {})
  {
    assert names - names == {};
  }

  /** A search from nothing visited finds exactly the drives that can be reached. */
  lemma SearchedAll(g: Graph, drives: set<Name>, name: Name, after: set<Name>, found: set<Name>)
    requires Searched(g, drives, name, {}, after, found) && name in after
    ensures forall d :: d in found <==> d in drives && Reaches(g, drives, name, d)
  {
    assert after - {} == after;
    forall d | d in drives && Reaches(g, drives, name, d) ensures d in found {
      var p :| PathTo(g, drives, p, name, d);
      ClosedContainsPaths(g, drives, after, p);
    }
  }

  /** `parents(name)`: the physical drives reachable without passing through another drive. */
  method Parents(g: Graph, drives: set<Name>, name: Name) returns (found: set<Name>)
    ensures forall d :: d in found <==> d in drives && Reaches(g, drives, name, d)
  {
    var visited := new Visited();
    ReachesItself(g, drives, name);
    found := Search(g, drives, name, visited, name, Nodes(g) + {name});
    SearchedAll(g, drives, name, visited.names, found);
  }
}
