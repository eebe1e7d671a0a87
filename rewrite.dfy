/** `replace_dp` and `remove_dp`: rewriting the pipes of a graph in place.
    The pipes live in a heap from id to their attributes; `_replace_dp` and
    `_remove_dp` walk a graph snapshot and call `_assign_attr` on every
    receiver of the target, and the result is the graph traversed anew. */
module GraphRewrite {
  import opened Common
  import opened PipeGraph
  import opened Attr

  /** A pipe object: its attributes, in `__dict__` order. */
  datatype Pipe = Pipe(names: seq<string>, vals: seq<Val>)

  /** Every pipe object, by id. */
  type Heap = map<Id, Pipe>

  datatype RewriteError =
    | AssertionError   // a graph without exactly one top-level entry
    | SourceRemoval    // RuntimeError: the pipe to remove has no input
    | MultipleInputs   // RuntimeError: the pipe to remove has several inputs
    | IndexError       // an entry for the removed pipe, reached below, that has no input
    | KeyError         // raised by `_assign_attr` on a set

  /** The heap after some calls, and the exception that stopped them, if any. */
  datatype Step = Step(heap: Heap, err: Option<RewriteError>)

  /** What `replace_dp` and `remove_dp` leave: the pipes, changed in place,
      and the graph they return or the exception they raise. */
  datatype Effect = Effect(heap: Heap, result: Result<Graph, RewriteError>)

  /** What the target is to be replaced by: `new_datapipe`, or, when removing,
      the first input of the entry for the target. */
  datatype Mode = ReplaceWith(newDp: Id) | RemoveToInput

  /** One `_assign_attr` call the walk makes: on pipe `recv`, with the
      substitute (`None`: the target entry has no input to substitute). */
  datatype Site = Site(recv: Id, sub: Option<Id>)

  /** Every pipe of the graph is an object of the heap. */
  ghost predicate Within(g: Graph, h: Heap) {
    Ids(g) <= h.Keys
  }

  /** What `traverse_dps(x)` returns: a graph with the single entry `x`. */
  predicate Rooted(g: Graph, x: Id) {
    |g.nodes| == 1 && g.nodes[0].id == x
  }

  /** The ids a pipe's attributes mention directly. */
  function FieldRefs(p: Pipe): set<Id> {
    RefsFrom(p.vals, 0)
  }

  lemma EntryWithin(g: Graph, j: nat, h: Heap)
    requires j < |g.nodes| && Within(g, h)
    ensures g.nodes[j].id in h && Within(g.nodes[j].preds, h)
  {
    TopNodes(g, j);
    IdsOfMono(Nodes(g.nodes[j].preds), Nodes(g));
  }

  // ---------------------------------------------------------------------
  // The specification

  /** `_assign_attr(recv, oldDp, newDp, inner_dp=True)`: `recv` being the
      target itself changes nothing; otherwise its attributes are scanned
      as a dict's values are, and the first one whose call returns
      something is overwritten. Only `recv` changes. */
  function Assigned(h: Heap, recv: Id, oldDp: Id, newDp: Id): (s: Step)
    requires recv in h
    ensures s.heap.Keys == h.Keys
    ensures forall x :: x in h && x != recv ==> s.heap[x] == h[x]
    ensures s.heap[recv].names == h[recv].names && |s.heap[recv].vals| == |h[recv].vals|
    ensures s.err.None? || s.err == Some(KeyError)
  {
    if recv == oldDp then Step(h, None)
    else
      var p := h[recv];
      var sc := ScanFrom(p.vals, oldDp, newDp, 0);
      Step(h[recv := Pipe(p.names, Overwrite(sc))], if sc.raised then Some(KeyError) else None)
  }

  /** The substitute for an entry `n` of the target. */
  function Substitute(mode: Mode, n: Node): Option<Id> {
    match mode
    case ReplaceWith(x) => Some(x)
    case RemoveToInput => if n.preds.nodes == [] then None else Some(n.preds.nodes[0].id)
  }

  /** One call of the walk; a missing input is the IndexError of
      `list(sub_send_graph.values())[0]`. */
  function Apply(h: Heap, site: Site, target: Id): (s: Step)
    requires site.recv in h
    ensures s.heap.Keys == h.Keys
  {
    if site.sub.None? then Step(h, Some(IndexError))
    else Assigned(h, site.recv, target, site.sub.value)
  }

  /** `_replace_dp(recv, g, target, new)` / `_remove_dp(recv, g, target)`
      from entry `i` of `g` on: an entry for the target has `recv` rewritten;
      any other entry is walked in turn as the receiver of its own inputs.
      The walk never goes below the target, and an exception ends it. */
  function Walked(h: Heap, recv: Id, g: Graph, target: Id, mode: Mode, i: nat): (s: Step)
    requires i <= |g.nodes| && recv in h && Within(g, h)
    ensures s.heap.Keys == h.Keys
    decreases g, |g.nodes| - i
  {
    if i == |g.nodes| then Step(h, None)
    else
      var n := g.nodes[i];
      EntryWithin(g, i, h);
      var r := if n.id == target then Apply(h, Site(recv, Substitute(mode, n)), target)
               else Walked(h, n.id, n.preds, target, mode, 0);
      if r.err.Some? then r else Walked(r.heap, recv, g, target, mode, i + 1)
  }

  /** The `for recv_dp, send_graph in graph.values()` loop of `replace_dp`
      and `remove_dp`, from entry `i` on. */
  function WalkedTop(h: Heap, g: Graph, target: Id, mode: Mode, i: nat): (s: Step)
    requires i <= |g.nodes| && Within(g, h)
    ensures s.heap.Keys == h.Keys
    decreases |g.nodes| - i
  {
    if i == |g.nodes| then Step(h, None)
    else
      var n := g.nodes[i];
      EntryWithin(g, i, h);
      var r := Walked(h, n.id, n.preds, target, mode, 0);
      if r.err.Some? then r else WalkedTop(r.heap, g, target, mode, i + 1)
  }

  /** `replace_dp(graph, old, new)`: the graph must have one top-level entry;
      if that entry is `old`, the walk starts from `traverse_dps(new)`
      instead, and the result is rooted at `new`; otherwise it is rooted
      at the old root. */
  function Replaced(h: Heap, g: Graph, oldDp: Id, newDp: Id, traverse: (Heap, Id) -> Graph): (e: Effect)
    requires Within(g, h) && newDp in h && Rooted(traverse(h, newDp), newDp) && Within(traverse(h, newDp), h)
    ensures e.heap.Keys == h.Keys
    ensures e.result == Err(AssertionError) <==> |g.nodes| != 1
    ensures |g.nodes| != 1 ==> e.heap == h
    ensures e.result.Err? ==> e.result.error in {AssertionError, KeyError}
    ensures e.result.Ok? ==>
              e.result.value == traverse(e.heap, if oldDp in TopIds(g) then newDp else g.nodes[0].id)
  {
    if |g.nodes| != 1 then Effect(h, Err(AssertionError))
    else
      var graph := if oldDp in TopIds(g) then traverse(h, newDp) else g;
      var s := WalkedTop(h, graph, oldDp, ReplaceWith(newDp), 0);
      ReplaceErrors(h, graph, oldDp, newDp, 0);
      if s.err.Some? then Effect(s.heap, Err(s.err.value))
      else Effect(s.heap, Ok(traverse(s.heap, graph.nodes[0].id)))
  }

  /** `remove_dp(graph, dp)`: the graph must have one top-level entry and
      `dp` exactly one input; every receiver of `dp` then reads from that
      input instead, and if `dp` was the root its input becomes the root. */
  function Removed(h: Heap, g: Graph, dp: Id, traverse: (Heap, Id) -> Graph): (e: Effect)
    requires Within(g, h) && dp in h && Rooted(traverse(h, dp), dp)
    ensures e.heap.Keys == h.Keys
    ensures |g.nodes| != 1 ==> e == Effect(h, Err(AssertionError))
    ensures |g.nodes| == 1 ==>
              (e.result == Err(SourceRemoval) <==> traverse(h, dp).nodes[0].preds.nodes == [])
              && (e.result == Err(MultipleInputs) <==> |traverse(h, dp).nodes[0].preds.nodes| > 1)
    ensures e.result.Err? && e.result.error in {SourceRemoval, MultipleInputs} ==> e.heap == h
    ensures e.result.Ok? ==>
              var graph := if dp in TopIds(g) then g.nodes[0].preds else g;
              |graph.nodes| == 1 && e.result.value == traverse(e.heap, graph.nodes[0].id)
  {
    if |g.nodes| != 1 then Effect(h, Err(AssertionError))
    else
      var inputs := traverse(h, dp).nodes[0].preds;
      if |inputs.nodes| == 0 then Effect(h, Err(SourceRemoval))
      else if |inputs.nodes| > 1 then Effect(h, Err(MultipleInputs))
      else
        var graph := if dp in TopIds(g) then g.nodes[0].preds else g;
        EntryWithin(g, 0, h);
        var s := WalkedTop(h, graph, dp, RemoveToInput, 0);
        RemoveErrors(h, graph, dp, 0);
        if s.err.Some? then Effect(s.heap, Err(s.err.value))
        else if |graph.nodes| != 1 then Effect(s.heap, Err(AssertionError))
        else Effect(s.heap, Ok(traverse(s.heap, graph.nodes[0].id)))
  }

  // ---------------------------------------------------------------------
  // The receivers of the target, independently of the walk

  /** The entries the walk reaches: it does not enter an entry for the target. */
  function Reached(g: Graph, target: Id): set<Node>
    decreases g, 1
  {
    ReachedFrom(g, target, 0)
  }

  function ReachedFrom(g: Graph, target: Id, i: nat): set<Node>
    requires i <= |g.nodes|
    decreases g, 0, |g.nodes| - i
  {
    if i == |g.nodes| then {}
    else
      var n := g.nodes[i];
      (if n.id == target then {} else {n} + Reached(n.preds, target)) + ReachedFrom(g, target, i + 1)
  }

  /** The pipes reached in `g` that have the target as a direct input. */
  function ReceiversIn(U: set<Node>, target: Id): set<Id> {
    set m | m in U && target in TopIds(m.preds) :: m.id
  }

  /** The ids of the entries from `i` on. */
  function TopIdsFrom(g: Graph, i: nat): set<Id>
    requires i <= |g.nodes|
  {
    set k | i <= k < |g.nodes| :: g.nodes[k].id
  }

  /** The calls the walk from entry `i` makes, in order, if nothing raises. */
  function Sites(recv: Id, g: Graph, target: Id, mode: Mode, i: nat): seq<Site>
    requires i <= |g.nodes|
    decreases g, |g.nodes| - i
  {
    if i == |g.nodes| then []
    else
      var n := g.nodes[i];
      (if n.id == target then [Site(recv, Substitute(mode, n))] else Sites(n.id, n.preds, target, mode, 0))
      + Sites(recv, g, target, mode, i + 1)
  }

  function TopSites(g: Graph, target: Id, mode: Mode, i: nat): seq<Site>
    requires i <= |g.nodes|
    decreases |g.nodes| - i
  {
    if i == |g.nodes| then []
    else Sites(g.nodes[i].id, g.nodes[i].preds, target, mode, 0) + TopSites(g, target, mode, i + 1)
  }

  function Receivers(sites: seq<Site>): set<Id> {
    set s | s in sites :: s.recv
  }

  /** The calls in order, stopping at the first exception. */
  function ApplyAll(h: Heap, sites: seq<Site>, target: Id): (s: Step)
    requires Receivers(sites) <= h.Keys
    ensures s.heap.Keys == h.Keys
    ensures forall x :: x in h && x !in Receivers(sites) ==> s.heap[x] == h[x]
    decreases |sites|
  {
    if sites == [] then Step(h, None)
    else
      assert sites[0] in sites;
      var r := Apply(h, sites[0], target);
      assert Receivers(sites[1..]) <= Receivers(sites) by {
        forall x | x in Receivers(sites[1..]) ensures x in Receivers(sites) {
          var s :| s in sites[1..] && s.recv == x;
          assert s in sites;
        }
      }
      if r.err.Some? then r else ApplyAll(r.heap, sites[1..], target)
  }

  // ---------------------------------------------------------------------
  // Properties

  lemma ReceiversConcat(a: seq<Site>, b: seq<Site>)
    ensures Receivers(a + b) == Receivers(a) + Receivers(b)
  {
    forall x | x in Receivers(a + b) ensures x in Receivers(a) + Receivers(b) {
      var s :| s in a + b && s.recv == x;
    }
    forall x | x in Receivers(a) + Receivers(b) ensures x in Receivers(a + b) {
      if x in Receivers(a) {
        var s :| s in a && s.recv == x;
        assert s in a + b;
      } else {
        var s :| s in b && s.recv == x;
        assert s in a + b;
      }
    }
  }

  /** Applying two runs of calls one after the other. */
  lemma {:induction false} ApplyAllConcat(h: Heap, a: seq<Site>, b: seq<Site>, target: Id)
    requires Receivers(a) + Receivers(b) <= h.Keys
    ensures Receivers(a + b) <= h.Keys
    ensures var r := ApplyAll(h, a, target);
            ApplyAll(h, a + b, target) == if r.err.Some? then r else ApplyAll(r.heap, b, target)
    decreases |a|
  {
    ReceiversConcat(a, b);
    if a == [] {
      assert a + b == b;
    } else {
      assert a[0] in a;
      assert (a + b)[0] == a[0];
      assert (a + b)[1..] == a[1..] + b;
      ReceiversConcat(a[1..], b);
      assert Receivers(a[1..]) <= Receivers(a) by {
        forall x | x in Receivers(a[1..]) ensures x in Receivers(a) {
          var s :| s in a[1..] && s.recv == x;
          assert s in a;
        }
      }
      var r := Apply(h, a[0], target);
      if r.err.None? {
        ApplyAllConcat(r.heap, a[1..], b, target);
      }
    }
  }

  /** Every call the walk makes is on `recv` or on a pipe of `g`. */
  lemma {:induction false} SitesWithin(recv: Id, g: Graph, target: Id, mode: Mode, i: nat)
    requires i <= |g.nodes|
    ensures Receivers(Sites(recv, g, target, mode, i)) <= {recv} + Ids(g)
    decreases g, |g.nodes| - i
  {
    if i < |g.nodes| {
      var n := g.nodes[i];
      TopNodes(g, i);
      IdsOfMono(Nodes(n.preds), Nodes(g));
      var here := if n.id == target then [Site(recv, Substitute(mode, n))] else Sites(n.id, n.preds, target, mode, 0);
      if n.id != target {
        SitesWithin(n.id, n.preds, target, mode, 0);
      }
      SitesWithin(recv, g, target, mode, i + 1);
      ReceiversConcat(here, Sites(recv, g, target, mode, i + 1));
    }
  }

  /** The walk is exactly the calls of `Sites`, in order. */
  lemma {:induction false} WalkIsSites(h: Heap, recv: Id, g: Graph, target: Id, mode: Mode, i: nat)
    requires i <= |g.nodes| && recv in h && Within(g, h)
    ensures Receivers(Sites(recv, g, target, mode, i)) <= h.Keys
    ensures Walked(h, recv, g, target, mode, i) == ApplyAll(h, Sites(recv, g, target, mode, i), target)
    decreases g, |g.nodes| - i
  {
    SitesWithin(recv, g, target, mode, i);
    if i < |g.nodes| {
      var n := g.nodes[i];
      EntryWithin(g, i, h);
      var site := Site(recv, Substitute(mode, n));
      var here := if n.id == target then [site] else Sites(n.id, n.preds, target, mode, 0);
      var rest := Sites(recv, g, target, mode, i + 1);
      SitesWithin(recv, g, target, mode, i + 1);
      ReceiversConcat(here, rest);
      var r := if n.id == target then Apply(h, site, target) else Walked(h, n.id, n.preds, target, mode, 0);
      if n.id == target {
        assert ApplyAll(h, here, target) == r by {
          assert here[1..] == [];
        }
      } else {
        WalkIsSites(h, n.id, n.preds, target, mode, 0);
      }
      ApplyAllConcat(h, here, rest, target);
      if r.err.None? {
        WalkIsSites(r.heap, recv, g, target, mode, i + 1);
      }
    }
  }

  lemma {:induction false} WalkTopIsSites(h: Heap, g: Graph, target: Id, mode: Mode, i: nat)
    requires i <= |g.nodes| && Within(g, h)
    ensures Receivers(TopSites(g, target, mode, i)) <= h.Keys
    ensures WalkedTop(h, g, target, mode, i) == ApplyAll(h, TopSites(g, target, mode, i), target)
    decreases |g.nodes| - i
  {
    if i < |g.nodes| {
      var n := g.nodes[i];
      EntryWithin(g, i, h);
      var here := Sites(n.id, n.preds, target, mode, 0);
      var rest := TopSites(g, target, mode, i + 1);
      WalkIsSites(h, n.id, n.preds, target, mode, 0);
      WalkTopIsSites(h, g, target, mode, i + 1);
      ReceiversConcat(here, rest);
      ApplyAllConcat(h, here, rest, target);
      var r := Walked(h, n.id, n.preds, target, mode, 0);
      if r.err.None? {
        WalkTopIsSites(r.heap, g, target, mode, i + 1);
      }
    }
  }

  lemma ReceiversInUnion(a: set<Node>, b: set<Node>, target: Id)
    ensures ReceiversIn(a + b, target) == ReceiversIn(a, target) + ReceiversIn(b, target)
  {
  }

  /** The walk from `recv` over `g` calls `_assign_attr` on exactly `recv`,
      when the target is among `g`'s own entries, and the reached pipes
      that have the target as a direct input. */
  lemma {:induction false} SitesExact(recv: Id, g: Graph, target: Id, mode: Mode)
    ensures Receivers(Sites(recv, g, target, mode, 0))
            == (if target in TopIds(g) then {recv} else {}) + ReceiversIn(Reached(g, target), target)
    decreases g, 1
  {
    SitesExactFrom(recv, g, target, mode, 0);
    assert TopIdsFrom(g, 0) == TopIds(g) by {
      forall x | x in TopIds(g) ensures x in TopIdsFrom(g, 0) {
        var n :| n in g.nodes && n.id == x;
        var k :| 0 <= k < |g.nodes| && g.nodes[k] == n;
      }
    }
  }

  lemma {:induction false} SitesExactFrom(recv: Id, g: Graph, target: Id, mode: Mode, i: nat)
    requires i <= |g.nodes|
    ensures Receivers(Sites(recv, g, target, mode, i))
            == (if target in TopIdsFrom(g, i) then {recv} else {}) + ReceiversIn(ReachedFrom(g, target, i), target)
    decreases g, 0, |g.nodes| - i, 1
  {
    if i == |g.nodes| {
      assert TopIdsFrom(g, i) == {};
    } else if g.nodes[i].id == target {
      SitesExactHit(recv, g, target, mode, i);
    } else {
      SitesExactMiss(recv, g, target, mode, i);
    }
  }

  lemma {:induction false} SitesExactHit(recv: Id, g: Graph, target: Id, mode: Mode, i: nat)
    requires i < |g.nodes| && g.nodes[i].id == target
    ensures Receivers(Sites(recv, g, target, mode, i))
            == (if target in TopIdsFrom(g, i) then {recv} else {}) + ReceiversIn(ReachedFrom(g, target, i), target)
    decreases g, 0, |g.nodes| - i, 0
  {
    var n := g.nodes[i];
    var rest := Sites(recv, g, target, mode, i + 1);
    SitesExactFrom(recv, g, target, mode, i + 1);
    assert TopIdsFrom(g, i) == {n.id} + TopIdsFrom(g, i + 1);
    assert Sites(recv, g, target, mode, i) == [Site(recv, Substitute(mode, n))] + rest;
    ReceiversConcat([Site(recv, Substitute(mode, n))], rest);
    assert Receivers([Site(recv, Substitute(mode, n))]) == {recv};
    assert ReachedFrom(g, target, i) == ReachedFrom(g, target, i + 1);
  }

  lemma {:induction false} SitesExactMiss(recv: Id, g: Graph, target: Id, mode: Mode, i: nat)
    requires i < |g.nodes| && g.nodes[i].id != target
    ensures Receivers(Sites(recv, g, target, mode, i))
            == (if target in TopIdsFrom(g, i) then {recv} else {}) + ReceiversIn(ReachedFrom(g, target, i), target)
    decreases g, 0, |g.nodes| - i, 0
  {
    var n := g.nodes[i];
    SitesExactFrom(recv, g, target, mode, i + 1);
    SitesExact(n.id, n.preds, target, mode);
    MissSites(recv, g, target, mode, i);
    MissReached(g, target, i);
    MissTop(g, target, i);
    Shuffle(if target in TopIds(n.preds) then {n.id} else {},
            ReceiversIn(Reached(n.preds, target), target),
            if target in TopIdsFrom(g, i + 1) then {recv} else {},
            ReceiversIn(ReachedFrom(g, target, i + 1), target));
  }

  lemma MissSites(recv: Id, g: Graph, target: Id, mode: Mode, i: nat)
    requires i < |g.nodes| && g.nodes[i].id != target
    ensures Receivers(Sites(recv, g, target, mode, i))
            == Receivers(Sites(g.nodes[i].id, g.nodes[i].preds, target, mode, 0))
               + Receivers(Sites(recv, g, target, mode, i + 1))
  {
    ReceiversConcat(Sites(g.nodes[i].id, g.nodes[i].preds, target, mode, 0), Sites(recv, g, target, mode, i + 1));
  }

  lemma MissReached(g: Graph, target: Id, i: nat)
    requires i < |g.nodes| && g.nodes[i].id != target
    ensures var n := g.nodes[i];
            ReceiversIn(ReachedFrom(g, target, i), target)
            == (if target in TopIds(n.preds) then {n.id} else {})
               + ReceiversIn(Reached(n.preds, target), target)
               + ReceiversIn(ReachedFrom(g, target, i + 1), target)
  {
    var n := g.nodes[i];
    ReceiversInUnion({n} + Reached(n.preds, target), ReachedFrom(g, target, i + 1), target);
    ReceiversInUnion({n}, Reached(n.preds, target), target);
    ReceiversInSingle(n, target);
  }

  lemma MissTop(g: Graph, target: Id, i: nat)
    requires i < |g.nodes| && g.nodes[i].id != target
    ensures (target in TopIdsFrom(g, i)) == (target in TopIdsFrom(g, i + 1))
  {
    assert TopIdsFrom(g, i) == {g.nodes[i].id} + TopIdsFrom(g, i + 1);
  }

  lemma Shuffle(a: set<Id>, b: set<Id>, c: set<Id>, d: set<Id>)
    ensures (a + b) + (c + d) == c + (a + b + d)
  {
  }

  lemma ReceiversInSingle(n: Node, target: Id)
    ensures ReceiversIn({n}, target) == if target in TopIds(n.preds) then {n.id} else {}
  {
  }

  /** What the walk reaches lies in the graph. */
  lemma {:induction false} ReachedInside(g: Graph, target: Id)
    ensures Reached(g, target) <= Nodes(g)
    decreases g, 1
  {
    ReachedInsideFrom(g, target, 0);
  }

  lemma {:induction false} ReachedInsideFrom(g: Graph, target: Id, i: nat)
    requires i <= |g.nodes|
    ensures ReachedFrom(g, target, i) <= NodesFrom(g, i)
    decreases g, 0, |g.nodes| - i
  {
    if i < |g.nodes| {
      var n := g.nodes[i];
      if n.id != target {
        ReachedInside(n.preds, target);
      }
      ReachedInsideFrom(g, target, i + 1);
    }
  }

  /** A walk over a graph that does not contain the target changes nothing. */
  lemma NoTargetNoChange(h: Heap, recv: Id, g: Graph, target: Id, mode: Mode)
    requires recv in h && Within(g, h) && target !in Ids(g)
    ensures Walked(h, recv, g, target, mode, 0) == Step(h, None)
  {
    SitesExact(recv, g, target, mode);
    NotTop(g, target);
    NoReceivers(g, target);
    FirstReceiver(Sites(recv, g, target, mode, 0));
    WalkIsSites(h, recv, g, target, mode, 0);
  }

  lemma NotTop(g: Graph, target: Id)
    requires target !in Ids(g)
    ensures target !in TopIds(g)
  {
    if target in TopIds(g) {
      var n :| n in g.nodes && n.id == target;
      var k :| 0 <= k < |g.nodes| && g.nodes[k] == n;
      TopNodes(g, k);
    }
  }

  lemma NoReceivers(g: Graph, target: Id)
    requires target !in Ids(g)
    ensures ReceiversIn(Reached(g, target), target) == {}
  {
    ReachedInside(g, target);
    forall m | m in Reached(g, target) ensures target !in TopIds(m.preds) {
      PredsInside(g, m);
      IdsOfMono(Nodes(m.preds), Nodes(g));
      NotTop(m.preds, target);
    }
  }

  /** A non-empty run of calls has a receiver. */
  lemma FirstReceiver(sites: seq<Site>)
    ensures sites == [] || sites[0].recv in Receivers(sites)
  {
    if sites != [] {
      assert sites[0] in sites;
    }
  }

  /** `replace_dp` changes no pipe but the receivers of `old` that the walk
      from the root reaches, and when nothing raises it is exactly the
      calls of `Sites` in order. */
  lemma ReplaceTouchesReceivers(h: Heap, g: Graph, oldDp: Id, newDp: Id, traverse: (Heap, Id) -> Graph)
    requires Within(g, h) && newDp in h && Rooted(traverse(h, newDp), newDp) && Within(traverse(h, newDp), h)
    requires |g.nodes| == 1
    ensures var graph := if oldDp in TopIds(g) then traverse(h, newDp) else g;
            var root := graph.nodes[0];
            var e := Replaced(h, g, oldDp, newDp, traverse);
            Receivers(Sites(root.id, root.preds, oldDp, ReplaceWith(newDp), 0)) <= h.Keys
            && e.heap == ApplyAll(h, Sites(root.id, root.preds, oldDp, ReplaceWith(newDp), 0), oldDp).heap
            && forall x :: x in h && x !in (if oldDp in TopIds(root.preds) then {root.id} else {})
                                               + ReceiversIn(Reached(root.preds, oldDp), oldDp)
                           ==> e.heap[x] == h[x]
  {
    var graph := if oldDp in TopIds(g) then traverse(h, newDp) else g;
    var root := graph.nodes[0];
    var mode := ReplaceWith(newDp);
    EntryWithin(graph, 0, h);
    WalkTopIsSites(h, graph, oldDp, mode, 0);
    assert TopSites(graph, oldDp, mode, 0) == Sites(root.id, root.preds, oldDp, mode, 0) + [];
    assert TopSites(graph, oldDp, mode, 0) == Sites(root.id, root.preds, oldDp, mode, 0);
    SitesExact(root.id, root.preds, oldDp, mode);
  }

  /** `remove_dp` on a non-root pipe changes no pipe but the receivers of
      `dp` reached from the root, and when nothing raises it is exactly the
      calls of `Sites` in order (what each call substitutes is the input
      recorded for `dp` where it was met, see `RemoveSubstitutes`). */
  lemma RemoveTouchesReceivers(h: Heap, g: Graph, dp: Id, traverse: (Heap, Id) -> Graph)
    requires Within(g, h) && dp in h && Rooted(traverse(h, dp), dp)
    requires |g.nodes| == 1 && |traverse(h, dp).nodes[0].preds.nodes| == 1 && dp !in TopIds(g)
    ensures var root := g.nodes[0];
            var e := Removed(h, g, dp, traverse);
            Receivers(Sites(root.id, root.preds, dp, RemoveToInput, 0)) <= h.Keys
            && e.heap == ApplyAll(h, Sites(root.id, root.preds, dp, RemoveToInput, 0), dp).heap
            && forall x :: x in h && x !in (if dp in TopIds(root.preds) then {root.id} else {})
                                             + ReceiversIn(Reached(root.preds, dp), dp)
                           ==> e.heap[x] == h[x]
  {
    var root := g.nodes[0];
    EntryWithin(g, 0, h);
    WalkTopIsSites(h, g, dp, RemoveToInput, 0);
    RemoveErrors(h, g, dp, 0);
    assert TopSites(g, dp, RemoveToInput, 0) == Sites(root.id, root.preds, dp, RemoveToInput, 0) + [];
    assert TopSites(g, dp, RemoveToInput, 0) == Sites(root.id, root.preds, dp, RemoveToInput, 0);
    SitesExact(root.id, root.preds, dp, RemoveToInput);
  }

  /** `remove_dp` on the root walks the root's own inputs: it is exactly the
      calls of `TopSites` over them in order, and changes no other pipe. */
  lemma RemoveRootTouchesReceivers(h: Heap, g: Graph, dp: Id, traverse: (Heap, Id) -> Graph)
    requires Within(g, h) && dp in h && Rooted(traverse(h, dp), dp)
    requires |g.nodes| == 1 && |traverse(h, dp).nodes[0].preds.nodes| == 1 && dp in TopIds(g)
    ensures var inputs := g.nodes[0].preds;
            var e := Removed(h, g, dp, traverse);
            Receivers(TopSites(inputs, dp, RemoveToInput, 0)) <= h.Keys
            && e.heap == ApplyAll(h, TopSites(inputs, dp, RemoveToInput, 0), dp).heap
            && forall x :: x in h && x !in Receivers(TopSites(inputs, dp, RemoveToInput, 0)) ==> e.heap[x] == h[x]
  {
    EntryWithin(g, 0, h);
    WalkTopIsSites(h, g.nodes[0].preds, dp, RemoveToInput, 0);
    RemovedWalks(h, g, dp, traverse);
  }

  /** Once its checks pass, `remove_dp` leaves the heap as the walk left it. */
  lemma RemovedWalks(h: Heap, g: Graph, dp: Id, traverse: (Heap, Id) -> Graph)
    requires Within(g, h) && dp in h && Rooted(traverse(h, dp), dp)
    requires |g.nodes| == 1 && |traverse(h, dp).nodes[0].preds.nodes| == 1
    ensures var graph := if dp in TopIds(g) then g.nodes[0].preds else g;
            Within(graph, h)
            && Removed(h, g, dp, traverse).heap == WalkedTop(h, graph, dp, RemoveToInput, 0).heap
  {
    EntryWithin(g, 0, h);
    var graph := if dp in TopIds(g) then g.nodes[0].preds else g;
    var s := WalkedTop(h, graph, dp, RemoveToInput, 0);
    var e := Removed(h, g, dp, traverse);
    if s.err.Some? {
      assert e == Effect(s.heap, Err(s.err.value));
    } else if |graph.nodes| != 1 {
      assert e == Effect(s.heap, Err(AssertionError));
    } else {
      assert e == Effect(s.heap, Ok(traverse(s.heap, graph.nodes[0].id)));
    }
  }

  /** When every entry for `dp` in the graph records the same inputs `P`
      (one snapshot), each call a removal makes substitutes the first of them. */
  lemma {:induction false} RemoveSubstitutes(recv: Id, g: Graph, dp: Id, P: Graph, i: nat)
    requires i <= |g.nodes| && |P.nodes| > 0
    requires forall n :: n in Nodes(g) && n.id == dp ==> n.preds == P
    ensures forall k :: 0 <= k < |Sites(recv, g, dp, RemoveToInput, i)| ==>
              Sites(recv, g, dp, RemoveToInput, i)[k].sub == Some(P.nodes[0].id)
    decreases g, |g.nodes| - i
  {
    if i < |g.nodes| {
      var n := g.nodes[i];
      TopNodes(g, i);
      var here := if n.id == dp then [Site(recv, Substitute(RemoveToInput, n))]
                  else Sites(n.id, n.preds, dp, RemoveToInput, 0);
      if n.id != dp {
        RemoveSubstitutes(n.id, n.preds, dp, P, 0);
        var below := Sites(n.id, n.preds, dp, RemoveToInput, 0);
        assert forall k :: 0 <= k < |below| ==> below[k].sub == Some(P.nodes[0].id);
        assert here == below;
      }
      RemoveSubstitutes(recv, g, dp, P, i + 1);
      var rest := Sites(recv, g, dp, RemoveToInput, i + 1);
      if n.id == dp {
        assert n.preds == P;
        assert here == [Site(recv, Some(P.nodes[0].id))];
      }
      assert forall k :: 0 <= k < |here| ==> here[k].sub == Some(P.nodes[0].id);
      var all := here + rest;
      assert Sites(recv, g, dp, RemoveToInput, i) == all;
      forall k | 0 <= k < |all| ensures all[k].sub == Some(P.nodes[0].id) {
        if k >= |here| {
          assert all[k] == rest[k - |here|];
        }
      }
    }
  }

  lemma {:induction false} ReplaceErrors(h: Heap, g: Graph, oldDp: Id, newDp: Id, i: nat)
    requires i <= |g.nodes| && Within(g, h)
    ensures var s := WalkedTop(h, g, oldDp, ReplaceWith(newDp), i);
            s.err.None? || s.err == Some(KeyError)
    decreases |g.nodes| - i
  {
    if i < |g.nodes| {
      var n := g.nodes[i];
      EntryWithin(g, i, h);
      WalkErrors(h, n.id, n.preds, oldDp, newDp, 0);
      var r := Walked(h, n.id, n.preds, oldDp, ReplaceWith(newDp), 0);
      if r.err.None? {
        ReplaceErrors(r.heap, g, oldDp, newDp, i + 1);
      }
    }
  }

  /** A replacement raises nothing but the KeyError of a set. */
  lemma {:induction false} WalkErrors(h: Heap, recv: Id, g: Graph, oldDp: Id, newDp: Id, i: nat)
    requires i <= |g.nodes| && recv in h && Within(g, h)
    ensures var s := Walked(h, recv, g, oldDp, ReplaceWith(newDp), i);
            s.err.None? || s.err == Some(KeyError)
    decreases g, |g.nodes| - i
  {
    if i < |g.nodes| {
      var n := g.nodes[i];
      EntryWithin(g, i, h);
      if n.id != oldDp {
        WalkErrors(h, n.id, n.preds, oldDp, newDp, 0);
      }
      var r := if n.id == oldDp then Apply(h, Site(recv, Some(newDp)), oldDp)
               else Walked(h, n.id, n.preds, oldDp, ReplaceWith(newDp), 0);
      if r.err.None? {
        WalkErrors(r.heap, recv, g, oldDp, newDp, i + 1);
      }
    }
  }

  /** A removal raises nothing but an IndexError or a KeyError. */
  lemma {:induction false} RemoveErrors(h: Heap, g: Graph, dp: Id, i: nat)
    requires i <= |g.nodes| && Within(g, h)
    ensures var s := WalkedTop(h, g, dp, RemoveToInput, i);
            s.err.None? || s.err == Some(KeyError) || s.err == Some(IndexError)
    decreases |g.nodes| - i
  {
    if i < |g.nodes| {
      var n := g.nodes[i];
      EntryWithin(g, i, h);
      RemoveWalkErrors(h, n.id, n.preds, dp, 0);
      var r := Walked(h, n.id, n.preds, dp, RemoveToInput, 0);
      if r.err.None? {
        RemoveErrors(r.heap, g, dp, i + 1);
      }
    }
  }

  lemma {:induction false} RemoveWalkErrors(h: Heap, recv: Id, g: Graph, dp: Id, i: nat)
    requires i <= |g.nodes| && recv in h && Within(g, h)
    ensures var s := Walked(h, recv, g, dp, RemoveToInput, i);
            s.err.None? || s.err == Some(KeyError) || s.err == Some(IndexError)
    decreases g, |g.nodes| - i
  {
    if i < |g.nodes| {
      var n := g.nodes[i];
      EntryWithin(g, i, h);
      if n.id != dp {
        RemoveWalkErrors(h, n.id, n.preds, dp, 0);
      }
      var r := if n.id == dp then Apply(h, Site(recv, Substitute(RemoveToInput, n)), dp)
               else Walked(h, n.id, n.preds, dp, RemoveToInput, 0);
      if r.err.None? {
        RemoveWalkErrors(r.heap, recv, g, dp, i + 1);
      }
    }
  }

  /** A receiver whose first attribute mentioning `old` is `old` itself has
      that attribute, and only that one, set to `new`. */
  lemma AssignedFirstField(h: Heap, recv: Id, oldDp: Id, newDp: Id, j: nat)
    requires recv in h && recv != oldDp
    requires j < |h[recv].vals| && h[recv].vals[j] == PipeRef(oldDp)
    requires forall k :: 0 <= k < j ==> oldDp !in Refs(h[recv].vals[k])
    ensures Assigned(h, recv, oldDp, newDp)
            == Step(h[recv := Pipe(h[recv].names, h[recv].vals[j := PipeRef(newDp)])], None)
  {
    FirstDirect(h[recv].vals, oldDp, newDp, 0, j);
    assert h[recv].vals[0..] == h[recv].vals;
  }

  /** A receiver whose attributes do not mention `old` is left as it was. */
  lemma AssignedUntouched(h: Heap, recv: Id, oldDp: Id, newDp: Id)
    requires recv in h && oldDp !in FieldRefs(h[recv])
    ensures Assigned(h, recv, oldDp, newDp) == Step(h, None)
  {
    var p := h[recv];
    UntouchedScan(p.vals, oldDp, newDp, 0);
    assert p.vals[0..] == p.vals;
    assert h[recv := Pipe(p.names, p.vals)] == h;
  }

  // ---------------------------------------------------------------------
  // The pipes, rewritten in place

  class Pipeline {
    /** Every pipe object, by id. */
    var pipes: Heap

    constructor(pipes0: Heap)
      ensures pipes == pipes0
    {
      pipes := pipes0;
    }

    /** `_assign_attr(recv, oldDp, newDp, inner_dp=True)`; what it returns is
        never used by its callers. */
    method AssignAttr(recv: Id, oldDp: Id, newDp: Id) returns (err: Option<RewriteError>)
      requires recv in pipes
      modifies this
      ensures Step(pipes, err) == Assigned(old(pipes), recv, oldDp, newDp)
    {
      if recv == oldDp {
        return None;
      }
      var p := pipes[recv];
      var sc := ScanSlots(p.vals, oldDp, newDp);
      pipes := pipes[recv := Pipe(p.names, Overwrite(sc))];
      err := if sc.raised then Some(KeyError) else None;
    }

    /** `_replace_dp` (mode `ReplaceWith`) and `_remove_dp` (mode `RemoveToInput`). */
    method Walk(recv: Id, g: Graph, target: Id, mode: Mode) returns (err: Option<RewriteError>)
      requires recv in pipes && Within(g, pipes)
      modifies this
      ensures Step(pipes, err) == Walked(old(pipes), recv, g, target, mode, 0)
      decreases g
    {
      var i := 0;
      while i < |g.nodes|
        invariant i <= |g.nodes| && pipes.Keys == old(pipes).Keys
        invariant Walked(old(pipes), recv, g, target, mode, 0) == Walked(pipes, recv, g, target, mode, i)
      {
        var n := g.nodes[i];
        EntryWithin(g, i, pipes);
        ghost var before := pipes;
        if n.id == target {
          var sub := Substitute(mode, n);
          if sub.None? {
            return Some(IndexError);
          }
          err := AssignAttr(recv, target, sub.value);
        } else {
          err := Walk(n.id, n.preds, target, mode);
        }
        if err.Some? {
          return;
        }
        i := i + 1;
      }
      err := None;
    }

    /** The loop over the top-level entries of `replace_dp` and `remove_dp`. */
    method WalkTop(g: Graph, target: Id, mode: Mode) returns (err: Option<RewriteError>)
      requires Within(g, pipes)
      modifies this
      ensures Step(pipes, err) == WalkedTop(old(pipes), g, target, mode, 0)
    {
      var i := 0;
      while i < |g.nodes|
        invariant i <= |g.nodes| && pipes.Keys == old(pipes).Keys
        invariant WalkedTop(old(pipes), g, target, mode, 0) == WalkedTop(pipes, g, target, mode, i)
      {
        var n := g.nodes[i];
        EntryWithin(g, i, pipes);
        err := Walk(n.id, n.preds, target, mode);
        if err.Some? {
          return;
        }
        i := i + 1;
      }
      err := None;
    }

    /** `replace_dp(graph, old, new)`. */
    method ReplaceDp(g: Graph, oldDp: Id, newDp: Id, traverse: (Heap, Id) -> Graph)
      returns (result: Result<Graph, RewriteError>)
      requires Within(g, pipes) && newDp in pipes
      requires Rooted(traverse(pipes, newDp), newDp) && Within(traverse(pipes, newDp), pipes)
      modifies this
      ensures Effect(pipes, result) == Replaced(old(pipes), g, oldDp, newDp, traverse)
    {
      if |g.nodes| != 1 {
        return Err(AssertionError);
      }
      var graph := g;
      if oldDp in TopIds(g) {
        graph := traverse(pipes, newDp);
      }
      var finalDp := graph.nodes[0].id;
      var err := WalkTop(graph, oldDp, ReplaceWith(newDp));
      if err.Some? {
        return Err(err.value);
      }
      result := Ok(traverse(pipes, finalDp));
    }

    /** `remove_dp(graph, dp)`. */
    method RemoveDp(g: Graph, dp: Id, traverse: (Heap, Id) -> Graph)
      returns (result: Result<Graph, RewriteError>)
      requires Within(g, pipes) && dp in pipes && Rooted(traverse(pipes, dp), dp)
      modifies this
      ensures Effect(pipes, result) == Removed(old(pipes), g, dp, traverse)
    {
      if |g.nodes| != 1 {
        return Err(AssertionError);
      }
      var inputs := traverse(pipes, dp).nodes[0].preds;
      if |inputs.nodes| == 0 {
        return Err(SourceRemoval);
      }
      if |inputs.nodes| > 1 {
        return Err(MultipleInputs);
      }
      var graph := g;
      if dp in TopIds(g) {
        EntryWithin(g, 0, pipes);
        graph := g.nodes[0].preds;
      }
      var err := WalkTop(graph, dp, RemoveToInput);
      if err.Some? {
        return Err(err.value);
      }
      if |graph.nodes| != 1 {
        return Err(AssertionError);
      }
      result := Ok(traverse(pipes, graph.nodes[0].id));
    }
  }
}
