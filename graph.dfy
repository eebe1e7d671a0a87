/** `DataPipeGraph`: the nested mapping that `traverse_dps` produces, from a
    pipe's id to the pipe and the graph of the pipes it reads from. */
module PipeGraph {

  /** `id(dp)`: pipe identity. */
  type Id = nat

  /** The entries of one level, in dictionary order. A dictionary holds each
      key once; a level here may list the same id twice, so every property
      below is stated for this larger set of graphs. */
  datatype Graph = Graph(nodes: seq<Node>)

  /** One entry: the pipe, known by its id and its exact type name, and the
      graph of its input pipes. */
  datatype Node = Node(id: Id, kind: string, preds: Graph)

  /** Every entry of the graph, at any depth. */
  function Nodes(g: Graph): set<Node>
    decreases g, 1
  {
    NodesFrom(g, 0)
  }

  function NodesFrom(g: Graph, i: nat): set<Node>
    requires i <= |g.nodes|
    decreases g, 0, |g.nodes| - i
  {
    if i == |g.nodes| then {}
    else {g.nodes[i]} + Nodes(g.nodes[i].preds) + NodesFrom(g, i + 1)
  }

  function IdsOf(ns: set<Node>): set<Id> {
    set n | n in ns :: n.id
  }

  /** The ids of every pipe in the graph. */
  function Ids(g: Graph): set<Id> {
    IdsOf(Nodes(g))
  }

  /** The ids of the entries at the top level only (the dictionary's keys). */
  function TopIds(g: Graph): set<Id> {
    set n | n in g.nodes :: n.id
  }

  /** A pipe appears with a single type and a single input graph wherever
      it is reached: the graph was taken from one snapshot of the pipes. */
  ghost predicate ConsistentSet(U: set<Node>) {
    forall a, b :: a in U && b in U && a.id == b.id ==> a == b
  }

  ghost predicate Consistent(g: Graph) {
    ConsistentSet(Nodes(g))
  }

  /** A set of ids that contains the inputs of every pipe of `U` it contains. */
  ghost predicate Closed(U: set<Node>, C: set<Id>) {
    forall m :: m in U && m.id in C ==> Ids(m.preds) <= C
  }

  /** The longest chain of inputs below the top level. */
  function Height(g: Graph): nat
    decreases g, 1
  {
    HeightFrom(g, 0)
  }

  function HeightFrom(g: Graph, i: nat): nat
    requires i <= |g.nodes|
    decreases g, 0, |g.nodes| - i
  {
    if i == |g.nodes| then 0
    else
      var a := 1 + Height(g.nodes[i].preds);
      var b := HeightFrom(g, i + 1);
      if a < b then b else a
  }

  lemma IdsOfUnion(a: set<Node>, b: set<Node>)
    ensures IdsOf(a + b) == IdsOf(a) + IdsOf(b)
  {
    forall x | x in IdsOf(a + b) ensures x in IdsOf(a) + IdsOf(b) {
      var n :| n in a + b && n.id == x;
    }
  }

  lemma IdsOfMono(a: set<Node>, b: set<Node>)
    requires a <= b
    ensures IdsOf(a) <= IdsOf(b)
  {
  }

  /** The entries below position `i` of a level are entries of the graph. */
  lemma {:induction false} NodesFromSub(g: Graph, i: nat)
    requires i <= |g.nodes|
    ensures NodesFrom(g, i) <= Nodes(g)
    decreases i
  {
    if i > 0 {
      NodesFromSub(g, i - 1);
    }
  }

  /** Every top-level entry, and everything below it, is part of the graph. */
  lemma TopNodes(g: Graph, j: nat)
    requires j < |g.nodes|
    ensures g.nodes[j] in Nodes(g) && Nodes(g.nodes[j].preds) <= Nodes(g)
  {
    NodesFromSub(g, j);
  }

  /** The graph of a pipe's inputs lies inside every graph that contains the pipe. */
  lemma {:induction false} PredsInside(h: Graph, m: Node)
    requires m in Nodes(h)
    ensures Nodes(m.preds) <= Nodes(h)
    decreases h, 1
  {
    PredsInsideFrom(h, 0, m);
  }

  lemma {:induction false} PredsInsideFrom(h: Graph, i: nat, m: Node)
    requires i <= |h.nodes| && m in NodesFrom(h, i)
    ensures Nodes(m.preds) <= NodesFrom(h, i)
    decreases h, 0, |h.nodes| - i
  {
    var n := h.nodes[i];
    if m == n {
    } else if m in Nodes(n.preds) {
      PredsInside(n.preds, m);
    } else {
      PredsInsideFrom(h, i + 1, m);
    }
  }

  /** Any pipe of a graph sits strictly lower than the graph's top level. */
  lemma {:induction false} LowerInside(h: Graph, m: Node)
    requires m in Nodes(h)
    ensures Height(m.preds) < Height(h)
    decreases h, 1
  {
    LowerInsideFrom(h, 0, m);
  }

  lemma {:induction false} LowerInsideFrom(h: Graph, i: nat, m: Node)
    requires i <= |h.nodes| && m in NodesFrom(h, i)
    ensures Height(m.preds) < HeightFrom(h, i)
    decreases h, 0, |h.nodes| - i
  {
    var n := h.nodes[i];
    if m == n {
    } else if m in Nodes(n.preds) {
      LowerInside(n.preds, m);
    } else {
      LowerInsideFrom(h, i + 1, m);
    }
  }

  /** No pipe of a consistent graph is among its own inputs, direct or indirect. */
  lemma NotOwnInput(U: set<Node>, n: Node)
    requires ConsistentSet(U) && n in U && Nodes(n.preds) <= U
    ensures n.id !in Ids(n.preds)
  {
    if n.id in Ids(n.preds) {
      var m :| m in Nodes(n.preds) && m.id == n.id;
      assert m == n;
      LowerInside(n.preds, n);
    }
  }

  /** In a consistent graph the ids of everything below a pipe form a closed set. */
  lemma IdsClosed(U: set<Node>, h: Graph)
    requires ConsistentSet(U) && Nodes(h) <= U
    ensures Closed(U, Ids(h))
  {
    forall m | m in U && m.id in Ids(h) ensures Ids(m.preds) <= Ids(h) {
      var m' :| m' in Nodes(h) && m'.id == m.id;
      assert m' == m;
      PredsInside(h, m);
    }
  }

  /** The entries of a level split into the first one, what lies below it,
      and the rest of the level. */
  lemma IdsFromSplit(g: Graph, i: nat)
    requires i < |g.nodes|
    ensures IdsOf(NodesFrom(g, i))
            == {g.nodes[i].id} + Ids(g.nodes[i].preds) + IdsOf(NodesFrom(g, i + 1))
  {
    var n := g.nodes[i];
    IdsOfUnion({n} + Nodes(n.preds), NodesFrom(g, i + 1));
    IdsOfUnion({n}, Nodes(n.preds));
  }
}
