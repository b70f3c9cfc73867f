/** The dependency checker's cycle finder (src/__tests__/web-domain-structure-helpers.ts): a depth-first search. */
module CycleFinder {
  import opened Prelude
  import opened Sorting
  import opened StringOrder

  type Node = string

  /** Nodes without an entry have no successors. */
  type Graph = map<Node, set<Node>>

  function Successors(edges: Graph, node: Node): set<Node> {
    if node in edges then edges[node] else {}
  }

  /** Every node there is: those with an entry and those pointed at. */
  ghost function Nodes(edges: Graph): set<Node> {
    edges.Keys + set node, next | node in edges && next in edges[node] :: next
  }

  ghost predicate Closed(edges: Graph, nodes: set<Node>) {
    edges.Keys <= nodes && forall node :: Successors(edges, node) <= nodes
  }

  lemma NodesAreClosed(edges: Graph)
    ensures Closed(edges, Nodes(edges))
  {
  }

  predicate EdgeAt(edges: Graph, path: seq<Node>, i: nat)
    requires i + 1 < |path|
  {
    path[i + 1] in Successors(edges, path[i])
  }

  predicate IsPath(edges: Graph, path: seq<Node>) {
    forall i :: 0 <= i < |path| - 1 ==> EdgeAt(edges, path, i)
  }

  /** A list of nodes that follows edges all the way round to where it began. */
  predicate IsCycle(edges: Graph, path: seq<Node>) {
    |path| >= 2 && IsPath(edges, path) && path[0] == path[|path| - 1]
  }

  /** A ranked node has only successors of lower rank. */
  ghost predicate Ranked(edges: Graph, rank: map<Node, nat>, node: Node)
    requires node in rank
  {
    forall next :: next in Successors(edges, node) ==> next in rank && rank[next] < rank[node]
  }

  /** Everything finished is ranked, below the next rank to give. */
  ghost predicate Ranks(edges: Graph, rank: map<Node, nat>, next: nat) {
    forall node {:trigger Ranked(edges, rank, node)} :: node in rank ==> Ranked(edges, rank, node) && rank[node] < next
  }

  /** A node whose successors are all ranked can be ranked above them. */
  lemma RankNext(edges: Graph, rank: map<Node, nat>, next: nat, node: Node)
    requires Ranks(edges, rank, next) && node !in rank && Successors(edges, node) <= rank.Keys
    ensures Ranks(edges, rank[node := next], next + 1)
  {
    var rank' := rank[node := next];
    forall other | other in rank' ensures Ranked(edges, rank', other) && rank'[other] < next + 1 {
      assert other != node ==> Ranked(edges, rank, other);
      forall below | below in Successors(edges, other) ensures below in rank' && rank'[below] < rank'[other] {
        assert below in rank;
        assert Ranked(edges, rank, below);
      }
    }
  }

  /** Ranks go down along a path. */
  lemma {:induction false} RanksGoDown(edges: Graph, rank: map<Node, nat>, next: nat, path: seq<Node>)
    requires Ranks(edges, rank, next) && IsPath(edges, path) && path != [] && path[0] in rank
    ensures path[|path| - 1] in rank && rank[path[|path| - 1]] + (|path| - 1) <= rank[path[0]]
    decreases |path|
  {
    if |path| > 1 {
      assert EdgeAt(edges, path, 0) && Ranked(edges, rank, path[0]);
      forall i | 0 <= i < |path[1..]| - 1 ensures EdgeAt(edges, path[1..], i) {
        assert EdgeAt(edges, path, i + 1);
      }
      RanksGoDown(edges, rank, next, path[1..]);
    }
  }

  lemma RankedMeansNoCycle(edges: Graph, rank: map<Node, nat>, next: nat)
    requires Ranks(edges, rank, next) && edges.Keys <= rank.Keys
    ensures !exists path :: IsCycle(edges, path)
  {
    if path :| IsCycle(edges, path) {
      assert EdgeAt(edges, path, 0);
      RanksGoDown(edges, rank, next, path);
    }
  }

  /** A path without repetition, as it is pushed. */
  ghost predicate Chain(edges: Graph, active: seq<Node>) {
    active == [] ||
    var init, last := active[..|active| - 1], active[|active| - 1];
    Chain(edges, init) && last !in init && (init != [] ==> last in Successors(edges, init[|init| - 1]))
  }

  lemma {:induction false} ChainIsPath(edges: Graph, active: seq<Node>)
    requires Chain(edges, active)
    ensures IsPath(edges, active)
  {
    if active != [] {
      var init := active[..|active| - 1];
      ChainIsPath(edges, init);
      forall i | 0 <= i < |active| - 1 ensures EdgeAt(edges, active, i) {
        assert i + 1 < |init| ==> EdgeAt(edges, init, i);
      }
    }
  }

  lemma Push(edges: Graph, active: seq<Node>, inActive: set<Node>, node: Node)
    requires Chain(edges, active) && inActive == Elements(active) && node !in inActive
    requires active != [] ==> node in Successors(edges, active[|active| - 1])
    ensures Chain(edges, active + [node]) && inActive + {node} == Elements(active + [node])
  {
    assert (active + [node])[..|active|] == active;
    assert forall x :: x in active + [node] <==> x in active || x == node;
  }

  lemma Pop(edges: Graph, active: seq<Node>, inActive: set<Node>, node: Node)
    requires active != [] && active[|active| - 1] == node && Chain(edges, active) && inActive == Elements(active)
    ensures Chain(edges, active[..|active| - 1]) && inActive - {node} == Elements(active[..|active| - 1]) && node in inActive
  {
    assert forall x :: x in active <==> x in active[..|active| - 1] || x == node;
  }

  /** Meeting an active node again closes a cycle. */
  lemma Closes(edges: Graph, active: seq<Node>, start: nat, node: Node)
    requires Chain(edges, active) && start < |active| && active[start] == node
    requires node in Successors(edges, active[|active| - 1])
    ensures IsCycle(edges, active[start..] + [node])
  {
    ChainIsPath(edges, active);
    var cycle := active[start..] + [node];
    forall i | 0 <= i < |cycle| - 1 ensures EdgeAt(edges, cycle, i) {
      assert start + i + 1 < |active| ==> EdgeAt(edges, active, start + i);
    }
  }

  class Search {
    const edges: Graph
    var visited: set<Node>
    var active: seq<Node>
    var inActive: set<Node>
    ghost var rank: map<Node, nat>
    ghost var next: nat

    ghost const nodes: set<Node>

    /** Everything visited is active or finished, and what is finished is ranked. */
    ghost predicate Valid()
      reads this
    {
      && Closed(edges, nodes) && visited <= nodes
      && Chain(edges, active) && inActive == Elements(active)
      && visited == inActive + rank.Keys && inActive !! rank.Keys
      && Ranks(edges, rank, next)
    }

    constructor (edges: Graph)
      ensures Valid() && this.edges == edges && active == [] && rank == map[]
    {
      this.edges := edges;
      visited, active, inActive, rank, next := {}, [], {}, map[], 0;
      nodes := Nodes(edges);
      NodesAreClosed(edges);
    }

    /** A cycle through the active nodes, or nothing once everything reachable from the node is finished. */
    method Visit(node: Node) returns (cycle: Option<seq<Node>>)
      requires Valid() && node in nodes
      requires active != [] ==> node in Successors(edges, active[|active| - 1])
      modifies this
      ensures cycle.Some? ==> IsCycle(edges, cycle.value)
      ensures cycle.None? ==> Valid() && active == old(active) && node in rank && old(rank.Keys) <= rank.Keys && old(visited) <= visited
      decreases nodes - visited, 0
    {
      if node in inActive {
        var start := IndexOf(active, node);
        Closes(edges, active, start, node);
        return Some(active[start..] + [node]);
      }
      if node in visited {
        return None;
      }
      Enter(node);
      var nexts := SortedElements(Successors(edges, node));
      cycle := VisitAll(node, nexts);
      if cycle.None? {
        assert active == old(active) + [node];
        Leave(node);
      }
    }

    method Enter(node: Node)
      requires Valid() && node in nodes && node !in visited
      requires active != [] ==> node in Successors(edges, active[|active| - 1])
      modifies this
      ensures Valid() && active == old(active) + [node] && visited == old(visited) + {node} && rank == old(rank)
    {
      Push(edges, active, inActive, node);
      visited, active, inActive := visited + {node}, active + [node], inActive + {node};
    }

    /** The node's successors are all finished, and now it is too. */
    method Leave(node: Node)
      requires Valid() && active != [] && active[|active| - 1] == node && Successors(edges, node) <= rank.Keys
      modifies this
      ensures Valid() && active == old(active)[..|old(active)| - 1] && visited == old(visited) && rank.Keys == old(rank.Keys) + {node}
    {
      Pop(edges, active, inActive, node);
      RankNext(edges, rank, next, node);
      active, inActive, rank, next := active[..|active| - 1], inActive - {node}, rank[node := next], next + 1;
    }

    /** The loop over the node's successors, in order. */
    method VisitAll(node: Node, nexts: seq<Node>) returns (cycle: Option<seq<Node>>)
      requires Elements(nexts) == Successors(edges, node)
      requires Valid() && active != [] && active[|active| - 1] == node
      modifies this
      ensures cycle.Some? ==> IsCycle(edges, cycle.value)
      ensures cycle.None? ==> Valid() && active == old(active) && old(rank.Keys) <= rank.Keys && old(visited) <= visited
      ensures cycle.None? ==> Successors(edges, node) <= rank.Keys
      decreases nodes - visited, 1
    {
      for i := 0 to |nexts|
        invariant Valid() && active == old(active) && old(rank.Keys) <= rank.Keys && old(visited) <= visited
        invariant Elements(nexts[..i]) <= rank.Keys
      {
        assert nexts[i] in Elements(nexts);
        cycle := Visit(nexts[i]);
        if cycle.Some? {
          return;
        }
        assert nexts[..i + 1] == nexts[..i] + [nexts[i]];
      }
      assert nexts[..|nexts|] == nexts;
      return None;
    }
  }

  method IndexOf(active: seq<Node>, node: Node) returns (i: nat)
    requires node in active
    ensures i < |active| && active[i] == node && node !in active[..i]
  {
    i := 0;
    while active[i] != node
      invariant i < |active| && node !in active[..i] && node in active[i..]
      decreases |active| - i
    {
      i := i + 1;
    }
  }

  /** Sound and complete: what is returned is a cycle of the graph, and nothing is returned only when there is none. */
  method FindCycle(edges: Graph) returns (cycle: Option<seq<Node>>)
    ensures cycle.Some? ==> IsCycle(edges, cycle.value)
    ensures cycle.Some? <==> exists path :: IsCycle(edges, path)
  {
    var search := new Search(edges);
    var nodes := SortedElements(edges.Keys);
    assert Elements(nodes) == edges.Keys;
    for i := 0 to |nodes|
      invariant fresh(search) && search.Valid() && search.edges == edges && search.active == []
      invariant Elements(nodes[..i]) <= search.rank.Keys
    {
      assert nodes[i] in Elements(nodes);
      cycle := search.Visit(nodes[i]);
      if cycle.Some? {
        return;
      }
      assert nodes[..i + 1] == nodes[..i] + [nodes[i]];
    }
    assert nodes[..|nodes|] == nodes;
    RankedMeansNoCycle(edges, search.rank, search.next);
    return None;
  }
}
