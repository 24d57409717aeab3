/**
 * The node and edge enumeration of the tree variant: one node per ranked row,
 * identified by its Name, and one edge Parent -> Name per row whose Parent cell
 * is not empty, both in ranked order.  The graph widget itself is represented
 * only by the two lists its `add_node` and `add_edge` calls build.
 */
module FamilyGraph {
  import opened Wrappers
  import opened LevelResolver
  import opened Ranking

  /** The lists a `Network` accumulates through `add_node` and `add_edge`. */
  class Network {
    var nodes: seq<string>
    var edges: seq<(string, string)>

    constructor ()
      ensures nodes == [] && edges == []
    {
      nodes := [];
      edges := [];
    }

    method AddNode(id: string)
      modifies this
      ensures nodes == old(nodes) + [id] && edges == old(edges)
    {
      nodes := nodes + [id];
    }

    method AddEdge(source: string, target: string)
      modifies this
      ensures edges == old(edges) + [(source, target)] && nodes == old(nodes)
    {
      edges := edges + [(source, target)];
    }
  }

  function NameAt(ranked: seq<RankedPerson>, i: int): string
    requires 0 <= i < |ranked|
  {
    ranked[i].row.person.name
  }

  function ParentAt(ranked: seq<RankedPerson>, i: int): Option<string>
    requires 0 <= i < |ranked|
  {
    ranked[i].row.person.parent
  }

  /** The names of the ranked rows, in ranked order. */
  function NodeIds(ranked: seq<RankedPerson>): seq<string> {
    seq(|ranked|, i requires 0 <= i < |ranked| => NameAt(ranked, i))
  }

  /** The edge each row with a Parent contributes, rows taken in ranked order. */
  function EdgeList(ranked: seq<RankedPerson>): seq<(string, string)> {
    if ranked == [] then []
    else
      var n := |ranked| - 1;
      EdgeList(ranked[..n]) + match ParentAt(ranked, n) {
        case None => []
        case Some(p) => [(p, NameAt(ranked, n))]
      }
  }

  /** The rows whose Parent cell is not empty. */
  function ParentedRows(ranked: seq<RankedPerson>): set<int> {
    set i | 0 <= i < |ranked| && ParentAt(ranked, i) != None
  }

  /** Ranked names are unique. */
  predicate DistinctNames(ranked: seq<RankedPerson>) {
    UniqueNames(PersonsOf(RowsOf(ranked)))
  }

  /** Lines 39-52: the two loops over the ranked rows. */
  method BuildNetwork(ranked: seq<RankedPerson>) returns (net: Network)
    ensures fresh(net)
    ensures net.nodes == NodeIds(ranked) && net.edges == EdgeList(ranked)
  {
    net := new Network();
    for i := 0 to |ranked|
      invariant net.nodes == NodeIds(ranked[..i]) && net.edges == []
    {
      net.AddNode(ranked[i].row.person.name);
    }
    assert ranked[..|ranked|] == ranked;
    for i := 0 to |ranked|
      invariant net.nodes == NodeIds(ranked) && net.edges == EdgeList(ranked[..i])
    {
      assert ranked[..i + 1][..i] == ranked[..i];
      if ranked[i].row.person.parent != None {
        net.AddEdge(ranked[i].row.person.parent.value, ranked[i].row.person.name);
      }
    }
  }

  /** One node per row, and with unique names no node twice. */
  lemma NodesOnePerRow(ranked: seq<RankedPerson>)
    ensures |NodeIds(ranked)| == |ranked|
    ensures forall x :: x in NodeIds(ranked) <==> exists i :: 0 <= i < |ranked| && NameAt(ranked, i) == x
    ensures DistinctNames(ranked) ==>
      forall a, b :: 0 <= a < b < |ranked| ==> NodeIds(ranked)[a] != NodeIds(ranked)[b]
  {
    forall x | x in NodeIds(ranked)
      ensures exists i :: 0 <= i < |ranked| && NameAt(ranked, i) == x
    {
      var i :| 0 <= i < |ranked| && NodeIds(ranked)[i] == x;
    }
    forall i | 0 <= i < |ranked|
      ensures NameAt(ranked, i) in NodeIds(ranked)
    {
      assert NodeIds(ranked)[i] == NameAt(ranked, i);
    }
  }

  /** An edge (p, c) is listed exactly when some row is named c and has Parent p. */
  lemma {:induction false} EdgeListMembers(ranked: seq<RankedPerson>, p: string, c: string)
    ensures (p, c) in EdgeList(ranked) <==>
      exists i :: 0 <= i < |ranked| && ParentAt(ranked, i) == Some(p) && NameAt(ranked, i) == c
  {
    if ranked != [] {
      var n := |ranked| - 1;
      var front := ranked[..n];
      EdgeListMembers(front, p, c);
      var inFront := (p, c) in EdgeList(front);
      var atLast := ParentAt(ranked, n) == Some(p) && NameAt(ranked, n) == c;
      assert (p, c) in EdgeList(ranked) <==> inFront || atLast;
      assert forall i :: 0 <= i < n ==> ParentAt(front, i) == ParentAt(ranked, i) && NameAt(front, i) == NameAt(ranked, i);
      if exists i :: 0 <= i < |ranked| && ParentAt(ranked, i) == Some(p) && NameAt(ranked, i) == c {
        var i :| 0 <= i < |ranked| && ParentAt(ranked, i) == Some(p) && NameAt(ranked, i) == c;
        if i < n {
          assert ParentAt(front, i) == Some(p) && NameAt(front, i) == c;
        }
      }
    }
  }

  /** One edge per row with a Parent: as many edges as such rows. */
  lemma {:induction false} EdgeCount(ranked: seq<RankedPerson>)
    ensures |EdgeList(ranked)| == |ParentedRows(ranked)|
  {
    if ranked != [] {
      var n := |ranked| - 1;
      var front := ranked[..n];
      EdgeCount(front);
      assert forall i :: 0 <= i < n ==> front[i] == ranked[i];
      var extra := if ParentAt(ranked, n) != None then {n} else {};
      assert ParentedRows(ranked) == ParentedRows(front) + extra;
      assert n !in ParentedRows(front);
    }
  }

  /** With unique names no two edges share their child end, so no edge is listed twice. */
  lemma {:induction false} EdgesDistinct(ranked: seq<RankedPerson>)
    requires DistinctNames(ranked)
    ensures forall a, b :: 0 <= a < b < |EdgeList(ranked)| ==> EdgeList(ranked)[a].1 != EdgeList(ranked)[b].1
  {
    if ranked != [] {
      var n := |ranked| - 1;
      var front := ranked[..n];
      assert forall i :: 0 <= i < n ==> ParentAt(front, i) == ParentAt(ranked, i) && NameAt(front, i) == NameAt(ranked, i);
      assert DistinctNames(front);
      EdgesDistinct(front);
      var edges := EdgeList(ranked);
      var m := |EdgeList(front)|;
      if ParentAt(ranked, n) != None {
        forall a | 0 <= a < m
          ensures edges[a].1 != NameAt(ranked, n)
        {
          var e := EdgeList(front)[a];
          EdgeListMembers(front, e.0, e.1);
          var i :| 0 <= i < n && ParentAt(front, i) == Some(e.0) && NameAt(front, i) == e.1;
          assert edges[a] == e;
        }
      }
    }
  }

  /** When every Parent names a row, every edge joins two listed nodes. */
  lemma EdgesJoinNodes(ranked: seq<RankedPerson>, p: string, c: string)
    requires forall i :: 0 <= i < |ranked| && ParentAt(ranked, i) != None ==> ParentAt(ranked, i).value in NodeIds(ranked)
    requires (p, c) in EdgeList(ranked)
    ensures p in NodeIds(ranked) && c in NodeIds(ranked)
  {
    var i := EdgeRow(ranked, p, c);
    assert NodeIds(ranked)[i] == c;
  }

  /** The row an edge comes from. */
  lemma EdgeRow(ranked: seq<RankedPerson>, p: string, c: string) returns (i: int)
    requires (p, c) in EdgeList(ranked)
    ensures 0 <= i < |ranked| && ParentAt(ranked, i) == Some(p) && NameAt(ranked, i) == c
  {
    EdgeListMembers(ranked, p, c);
    i :| 0 <= i < |ranked| && ParentAt(ranked, i) == Some(p) && NameAt(ranked, i) == c;
  }
}
