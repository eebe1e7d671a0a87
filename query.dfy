/** `find_dps` and `list_dps`: read-only queries over a pipe graph. */
module GraphQuery {
  import opened Common
  import opened PipeGraph

  // ---------------------------------------------------------------------------
  // find_dps

  /** What the search has produced so far: the pipes found and the visited ids. */
  datatype Found = Found(dps: seq<Id>, cache: set<Id>)

  /** The pre-order walk of `find_dps.helper`: each entry whose id was not
      visited yet is marked, reported when its exact type is `t`, and then its
      input graph is walked before the next entry of the level. */
  function Visit(g: Graph, t: string, acc: Found): Found
    decreases g, 1
  {
    VisitFrom(g, 0, t, acc)
  }

  function VisitFrom(g: Graph, i: nat, t: string, acc: Found): Found
    requires i <= |g.nodes|
    decreases g, 0, |g.nodes| - i
  {
    if i == |g.nodes| then acc
    else
      var n := g.nodes[i];
      if n.id in acc.cache then VisitFrom(g, i + 1, t, acc)
      else
        var marked := Found(if n.kind == t then acc.dps + [n.id] else acc.dps, acc.cache + {n.id});
        VisitFrom(g, i + 1, t, Visit(n.preds, t, marked))
  }

  /** The ids of the pipes of `U` whose exact type is `t`. */
  function KindIds(U: set<Node>, t: string): set<Id> {
    set n | n in U && n.kind == t :: n.id
  }

  /** Found pipes are distinct, visited, and of type `t`. */
  ghost predicate SoundFound(acc: Found, K: set<Id>) {
    NoDups(acc.dps) && forall x :: x in acc.dps ==> x in acc.cache && x in K
  }

  /** Found pipes are distinct, and are exactly the visited ids of type `t`. */
  ghost predicate ExactFound(acc: Found, K: set<Id>) {
    NoDups(acc.dps) && forall x :: x in acc.dps <==> x in acc.cache && x in K
  }

  lemma AppendNoDups(s: seq<Id>, x: Id)
    requires NoDups(s) && x !in s
    ensures NoDups(s + [x])
  {
  }

  /** Whatever the graph, `find_dps` reports each id at most once and only
      pipes of the requested type. */
  lemma {:induction false} VisitSound(U: set<Node>, g: Graph, t: string, acc: Found)
    requires Nodes(g) <= U && SoundFound(acc, KindIds(U, t))
    ensures SoundFound(Visit(g, t, acc), KindIds(U, t)) && acc.cache <= Visit(g, t, acc).cache
    decreases g, 1
  {
    VisitFromSound(U, g, 0, t, acc);
  }

  lemma {:induction false} VisitFromSound(U: set<Node>, g: Graph, i: nat, t: string, acc: Found)
    requires i <= |g.nodes| && Nodes(g) <= U && SoundFound(acc, KindIds(U, t))
    ensures SoundFound(VisitFrom(g, i, t, acc), KindIds(U, t)) && acc.cache <= VisitFrom(g, i, t, acc).cache
    decreases g, 0, |g.nodes| - i
  {
    if i < |g.nodes| {
      var n := g.nodes[i];
      TopNodes(g, i);
      if n.id in acc.cache {
        VisitFromSound(U, g, i + 1, t, acc);
      } else {
        var marked := Found(if n.kind == t then acc.dps + [n.id] else acc.dps, acc.cache + {n.id});
        if n.kind == t {
          AppendNoDups(acc.dps, n.id);
        }
        VisitSound(U, n.preds, t, marked);
        VisitFromSound(U, g, i + 1, t, Visit(n.preds, t, marked));
      }
    }
  }

  /** On a consistent graph the walk visits every id below the current level
      and reports exactly the visited ids of type `t`. The visited set is split
      into `Cl`, closed under inputs, and `S`, the ids of the entries whose
      input graphs are being walked, none of which occurs below them. */
  lemma {:induction false} VisitExact(U: set<Node>, g: Graph, t: string, acc: Found, Cl: set<Id>, S: set<Id>)
    requires ConsistentSet(U) && Nodes(g) <= U
    requires acc.cache == Cl + S && Closed(U, Cl) && S !! Ids(g)
    requires ExactFound(acc, KindIds(U, t))
    ensures Visit(g, t, acc).cache == acc.cache + Ids(g)
    ensures ExactFound(Visit(g, t, acc), KindIds(U, t))
    decreases g, 1
  {
    VisitFromExact(U, g, 0, t, acc, Cl, S);
  }

  lemma {:induction false} VisitFromExact(U: set<Node>, g: Graph, i: nat, t: string, acc: Found, Cl: set<Id>, S: set<Id>)
    requires i <= |g.nodes| && ConsistentSet(U) && Nodes(g) <= U
    requires acc.cache == Cl + S && Closed(U, Cl) && S !! IdsOf(NodesFrom(g, i))
    requires ExactFound(acc, KindIds(U, t))
    ensures VisitFrom(g, i, t, acc).cache == acc.cache + IdsOf(NodesFrom(g, i))
    ensures ExactFound(VisitFrom(g, i, t, acc), KindIds(U, t))
    decreases g, 0, |g.nodes| - i, 1
  {
    if i == |g.nodes| {
      assert VisitFrom(g, i, t, acc) == acc;
    } else if g.nodes[i].id in acc.cache {
      SeenExact(U, g, i, t, acc, Cl, S);
    } else {
      NewExact(U, g, i, t, acc, Cl, S);
    }
  }

  /** An entry visited before is skipped: its inputs were visited with it. */
  lemma {:induction false} SeenExact(U: set<Node>, g: Graph, i: nat, t: string, acc: Found, Cl: set<Id>, S: set<Id>)
    requires i < |g.nodes| && ConsistentSet(U) && Nodes(g) <= U && g.nodes[i].id in acc.cache
    requires acc.cache == Cl + S && Closed(U, Cl) && S !! IdsOf(NodesFrom(g, i))
    requires ExactFound(acc, KindIds(U, t))
    ensures VisitFrom(g, i, t, acc).cache == acc.cache + IdsOf(NodesFrom(g, i))
    ensures ExactFound(VisitFrom(g, i, t, acc), KindIds(U, t))
    decreases g, 0, |g.nodes| - i, 0
  {
    var n := g.nodes[i];
    assert acc.cache + IdsOf(NodesFrom(g, i)) == acc.cache + IdsOf(NodesFrom(g, i + 1))
           && S !! IdsOf(NodesFrom(g, i + 1)) by {
      TopNodes(g, i);
      IdsFromSplit(g, i);
      assert n.id in Cl && n in U;
      assert Ids(n.preds) <= acc.cache;
    }
    VisitFromExact(U, g, i + 1, t, acc, Cl, S);
    assert VisitFrom(g, i, t, acc) == VisitFrom(g, i + 1, t, acc);
  }

  /** An entry not visited yet is marked, then its inputs are walked, then the
      rest of the level. */
  lemma {:induction false} NewExact(U: set<Node>, g: Graph, i: nat, t: string, acc: Found, Cl: set<Id>, S: set<Id>)
    requires i < |g.nodes| && ConsistentSet(U) && Nodes(g) <= U && g.nodes[i].id !in acc.cache
    requires acc.cache == Cl + S && Closed(U, Cl) && S !! IdsOf(NodesFrom(g, i))
    requires ExactFound(acc, KindIds(U, t))
    ensures VisitFrom(g, i, t, acc).cache == acc.cache + IdsOf(NodesFrom(g, i))
    ensures ExactFound(VisitFrom(g, i, t, acc), KindIds(U, t))
    decreases g, 0, |g.nodes| - i, 0
  {
    var n := g.nodes[i];
    var marked := Found(if n.kind == t then acc.dps + [n.id] else acc.dps, acc.cache + {n.id});
    var below := Visit(n.preds, t, marked);
    var Cl' := Cl + {n.id} + Ids(n.preds);
    TopNodes(g, i);
    IdsFromSplit(g, i);
    assert below.cache == Cl' + S && Closed(U, Cl') && ExactFound(below, KindIds(U, t))
           && S !! IdsOf(NodesFrom(g, i + 1)) by {
      MarkExact(U, n, t, acc);
      NotOwnInput(U, n);
      VisitExact(U, n.preds, t, marked, Cl, S + {n.id});
      ClosedAfter(U, n, Cl);
    }
    VisitFromExact(U, g, i + 1, t, below, Cl', S);
    assert VisitFrom(g, i, t, acc) == VisitFrom(g, i + 1, t, below);
  }

  /** Marking an unvisited pipe `n` of `U` keeps the found list exact. */
  lemma MarkExact(U: set<Node>, n: Node, t: string, acc: Found)
    requires ConsistentSet(U) && n in U && n.id !in acc.cache
    requires ExactFound(acc, KindIds(U, t))
    ensures ExactFound(Found(if n.kind == t then acc.dps + [n.id] else acc.dps, acc.cache + {n.id}), KindIds(U, t))
  {
    var K := KindIds(U, t);
    assert n.kind == t <==> n.id in K by {
      if n.id in K {
        var m :| m in U && m.kind == t && m.id == n.id;
        assert m == n;
      }
    }
    if n.kind == t {
      AppendNoDups(acc.dps, n.id);
    }
  }

  /** Adding a pipe of `U` together with every pipe below it keeps a visited set closed. */
  lemma ClosedAfter(U: set<Node>, n: Node, Cl: set<Id>)
    requires ConsistentSet(U) && n in U && Nodes(n.preds) <= U && Closed(U, Cl)
    ensures Closed(U, Cl + {n.id} + Ids(n.preds))
  {
    var Cl' := Cl + {n.id} + Ids(n.preds);
    IdsClosed(U, n.preds);
    forall m | m in U && m.id in Cl' ensures Ids(m.preds) <= Cl' {
      if m.id == n.id {
        assert m == n;
      }
    }
  }

  /** `find_dps(graph, t)`: the pipes of the graph whose exact type is `t`,
      in the pre-order of the walk, each once; on a consistent graph, all of them. */
  method FindDps(g: Graph, t: string) returns (dps: seq<Id>)
    ensures dps == Visit(g, t, Found([], {})).dps
    ensures NoDups(dps) && forall x :: x in dps ==> x in KindIds(Nodes(g), t)
    ensures Consistent(g) ==> forall x :: x in dps <==> x in KindIds(Nodes(g), t)
  {
    var cache;
    dps, cache := Helper(g, t, [], {});
    VisitSound(Nodes(g), g, t, Found([], {}));
    if Consistent(g) {
      VisitExact(Nodes(g), g, t, Found([], {}), {}, {});
      forall x | x in KindIds(Nodes(g), t) ensures x in Ids(g) { }
    }
  }

  /** The nested `helper` of `find_dps`, with the shared `dps` and `cache`
      threaded through. */
  method Helper(g: Graph, t: string, dps0: seq<Id>, cache0: set<Id>) returns (dps: seq<Id>, cache: set<Id>)
    ensures Found(dps, cache) == Visit(g, t, Found(dps0, cache0))
    decreases g, 1
  {
    dps, cache := dps0, cache0;
    var i := 0;
    while i < |g.nodes|
      invariant i <= |g.nodes|
      invariant Visit(g, t, Found(dps0, cache0)) == VisitFrom(g, i, t, Found(dps, cache))
    {
      var n := g.nodes[i];
      if n.id !in cache {
        cache := cache + {n.id};
        if n.kind == t {
          dps := dps + [n.id];
        }
        dps, cache := Helper(n.preds, t, dps, cache);
      }
      i := i + 1;
    }
  }

  // ---------------------------------------------------------------------------
  // list_dps

  /** `exclude_dps`: a single pipe, or a list of pipes. */
  datatype Exclude = One(pipe: Id) | Many(pipes: seq<Id>)

  /** A single excluded pipe is treated as a one-element list. */
  function ExcludeList(exclude: Option<Exclude>): (xs: seq<Id>)
    ensures exclude.None? ==> xs == []
    ensures exclude.Some? && exclude.value.One? ==> xs == [exclude.value.pipe]
  {
    match exclude
    case None => []
    case Some(One(x)) => [x]
    case Some(Many(xs)) => xs
  }

  function Elems<X>(s: seq<X>): set<X> {
    set x | x in s
  }

  function IdSeq(ns: seq<Node>): (r: seq<Id>)
    ensures |r| == |ns| && forall k :: 0 <= k < |ns| ==> r[k] == ns[k].id
  {
    seq(|ns|, k requires 0 <= k < |ns| => ns[k].id)
  }

  /** The entries of `ns` whose ids are neither in `cache` nor repeated, in
      order: what one `if id not in cache: q.append(...); cache.add(id)` loop
      enqueues. */
  function FreshNodes(ns: seq<Node>, cache: set<Id>): (r: seq<Node>)
    ensures forall n :: n in r ==> n in ns && n.id !in cache
    ensures NoDups(IdSeq(r))
    ensures forall n :: n in ns ==> n.id in cache || n.id in IdSeq(r)
  {
    if ns == [] then []
    else
      var r := FreshNodes(ns[..|ns| - 1], cache);
      var n := ns[|ns| - 1];
      assert forall m :: m in ns[..|ns| - 1] ==> m in ns;
      if n.id in cache || n.id in IdSeq(r) then r
      else
        assert IdSeq(r + [n]) == IdSeq(r) + [n.id];
        r + [n]
  }

  /** The ids of every pipe below any excluded pipe. */
  function ExclusionIds(xs: seq<Id>, traverse: Id -> Graph): set<Id> {
    if xs == [] then {}
    else ExclusionIds(xs[..|xs| - 1], traverse) + Ids(traverse(xs[|xs| - 1]))
  }

  /** What `traverse_dps` promises: each graph it returns is consistent, and
      the graph of a pipe found below `x` lies within the graph of `x`. */
  ghost predicate TraversalSound(traverse: Id -> Graph) {
    (forall x :: Consistent(traverse(x)))
    && (forall x, y :: y in Ids(traverse(x)) ==> Ids(traverse(y)) <= Ids(traverse(x)))
  }

  lemma {:induction false} ExclusionWitness(xs: seq<Id>, traverse: Id -> Graph, y: Id) returns (j: nat)
    requires y in ExclusionIds(xs, traverse)
    ensures j < |xs| && y in Ids(traverse(xs[j]))
    decreases |xs|
  {
    if y in Ids(traverse(xs[|xs| - 1])) {
      j := |xs| - 1;
    } else {
      j := ExclusionWitness(xs[..|xs| - 1], traverse, y);
    }
  }

  lemma {:induction false} ExclusionCovers(xs: seq<Id>, traverse: Id -> Graph, j: nat)
    requires j < |xs|
    ensures Ids(traverse(xs[j])) <= ExclusionIds(xs, traverse)
    decreases |xs|
  {
    if j < |xs| - 1 {
      ExclusionCovers(xs[..|xs| - 1], traverse, j);
    }
  }

  /** The list starts with the top-level entries not marked in advance, in order. */
  ghost predicate RootsFirst(g: Graph, E: set<Id>, dps: seq<Id>) {
    var roots := IdSeq(FreshNodes(g.nodes, E));
    |roots| <= |dps| && dps[..|roots|] == roots
  }

  /** Each pipe after those was discovered as a direct input of a pipe listed before it. */
  ghost predicate Discovered(g: Graph, E: set<Id>, dps: seq<Id>) {
    forall k :: |FreshNodes(g.nodes, E)| <= k < |dps| ==> FoundVia(g, dps, k)
  }

  /** Entry `k` is a direct input of some pipe listed before it. */
  ghost predicate FoundVia(g: Graph, dps: seq<Id>, k: nat)
    requires k < |dps|
  {
    exists j, m :: 0 <= j < k && m in Nodes(g) && m.id == dps[j] && dps[k] in TopIds(m.preds)
  }

  /** Every pipe of the graph not marked in advance is listed. */
  ghost predicate Complete(g: Graph, E: set<Id>, dps: seq<Id>) {
    forall x :: x in Ids(g) && x !in E ==> x in dps
  }

  /** `list_dps(graph, exclude_dps)`: the pipes of the graph, each once, in
      breadth-first discovery order from the top-level entries, leaving out
      every pipe listed below an excluded pipe (`excluded`). */
  method ListDps(g: Graph, exclude: Option<Exclude>, traverse: Id -> Graph)
    returns (dps: seq<Id>, ghost excluded: set<Id>)
    ensures NoDups(dps)
    ensures forall x :: x in dps ==> x in Ids(g) && x !in excluded
    ensures excluded <= ExclusionIds(ExcludeList(exclude), traverse)
    ensures TraversalSound(traverse) ==>
              forall j :: 0 <= j < |ExcludeList(exclude)| ==> Ids(traverse(ExcludeList(exclude)[j])) <= excluded
    ensures Consistent(g) && Closed(Nodes(g), excluded) ==> Complete(g, excluded, dps)
    ensures RootsFirst(g, excluded, dps) && Discovered(g, excluded, dps)
    decreases if exclude.None? then 0 else 2
  {
    var cache: set<Id> := {};
    if exclude.Some? {
      cache := Exclusions(ExcludeList(exclude), traverse);
    }
    excluded := cache;
    dps := Bfs(g, cache);
    if TraversalSound(traverse) {
      forall j | 0 <= j < |ExcludeList(exclude)|
        ensures Ids(traverse(ExcludeList(exclude)[j])) <= excluded
      {
        ExclusionCovers(ExcludeList(exclude), traverse, j);
      }
    }
  }

  /** The first loop of `list_dps`: every pipe that `list_dps` lists for an
      excluded pipe is marked, skipping excluded pipes already marked. */
  method Exclusions(xs: seq<Id>, traverse: Id -> Graph) returns (cache: set<Id>)
    ensures cache <= ExclusionIds(xs, traverse)
    ensures TraversalSound(traverse) ==> ExclusionIds(xs, traverse) <= cache
    decreases 1
  {
    cache := {};
    var i := 0;
    while i < |xs|
      invariant i <= |xs|
      invariant cache <= ExclusionIds(xs[..i], traverse)
      invariant TraversalSound(traverse) ==> ExclusionIds(xs[..i], traverse) <= cache
    {
      var e := xs[i];
      assert xs[..i + 1][..i] == xs[..i];
      if e !in cache {
        var sub, none := ListDps(traverse(e), None, traverse);
        cache := MarkAll(cache, sub);
        ExclusionAdded(xs[..i + 1], traverse, none, sub);
      } else if TraversalSound(traverse) {
        var j := ExclusionWitness(xs[..i], traverse, e);
        ExclusionCovers(xs[..i], traverse, j);
      }
      i := i + 1;
    }
    assert xs[..i] == xs;
  }

  /** The ids `list_dps` returns for the last exclusion are the ids of its
      graph, all of them when the traversal is sound. */
  lemma ExclusionAdded(xs: seq<Id>, traverse: Id -> Graph, none: set<Id>, sub: seq<Id>)
    requires xs != [] && none <= ExclusionIds([], traverse)
    requires forall x :: x in sub ==> x in Ids(traverse(xs[|xs| - 1])) && x !in none
    requires Consistent(traverse(xs[|xs| - 1])) && Closed(Nodes(traverse(xs[|xs| - 1])), none)
             ==> Complete(traverse(xs[|xs| - 1]), none, sub)
    ensures ExclusionIds(xs[..|xs| - 1], traverse) + Elems(sub) <= ExclusionIds(xs, traverse)
    ensures TraversalSound(traverse) ==> ExclusionIds(xs, traverse) <= ExclusionIds(xs[..|xs| - 1], traverse) + Elems(sub)
  {
    var h := traverse(xs[|xs| - 1]);
    assert none == {};
    if TraversalSound(traverse) {
      assert Consistent(h);
      forall x | x in Ids(h) ensures x in sub {
        assert Complete(h, none, sub);
      }
    }
  }

  /** Marks every id of `sub`. */
  method MarkAll(cache: set<Id>, sub: seq<Id>) returns (cache': set<Id>)
    ensures cache' == cache + Elems(sub)
  {
    cache' := cache;
    var k := 0;
    while k < |sub|
      invariant k <= |sub| && cache' == cache + Elems(sub[..k])
    {
      assert Elems(sub[..k + 1]) == Elems(sub[..k]) + {sub[k]};
      cache' := cache' + {sub[k]};
      k := k + 1;
    }
    assert sub[..k] == sub;
  }

  /** Enqueue the entries of `ns` not yet marked, marking them. */
  method Enqueue(ns: seq<Node>, q: seq<Node>, cache: set<Id>) returns (q': seq<Node>, cache': set<Id>)
    ensures q' == q + FreshNodes(ns, cache) && cache' == cache + Elems(IdSeq(FreshNodes(ns, cache)))
  {
    q', cache' := q, cache;
    var i := 0;
    while i < |ns|
      invariant i <= |ns|
      invariant q' == q + FreshNodes(ns[..i], cache) && cache' == cache + Elems(IdSeq(FreshNodes(ns[..i], cache)))
    {
      var n := ns[i];
      FreshStep(ns, i, cache);
      if n.id !in cache' {
        q' := q' + [n];
        cache' := cache' + {n.id};
      }
      i := i + 1;
    }
    assert ns[..i] == ns;
  }

  /** One more entry of `ns` adds itself to the fresh entries exactly when its
      id is neither marked nor already among them. */
  lemma FreshStep(ns: seq<Node>, i: nat, cache: set<Id>)
    requires i < |ns|
    ensures var f := FreshNodes(ns[..i], cache);
            var n := ns[i];
            (n.id in cache + Elems(IdSeq(f)) ==> FreshNodes(ns[..i + 1], cache) == f)
            && (n.id !in cache + Elems(IdSeq(f)) ==>
                  FreshNodes(ns[..i + 1], cache) == f + [n]
                  && Elems(IdSeq(f + [n])) == Elems(IdSeq(f)) + {n.id})
  {
    assert ns[..i + 1][..i] == ns[..i];
    var f := FreshNodes(ns[..i], cache);
    assert IdSeq(f + [ns[i]]) == IdSeq(f) + [ns[i].id];
  }

  lemma IdSeqConcat(a: seq<Node>, b: seq<Node>)
    ensures IdSeq(a + b) == IdSeq(a) + IdSeq(b)
  {
  }

  /** Marking a new id of `a` shrinks the unmarked part of `a`. */
  lemma SubsetCard(a: set<Id>, b: set<Id>, c: set<Id>, x: Id)
    requires x in a && x !in b && b + {x} <= c
    ensures |a - c| < |a - b|
  {
    var smaller := a - (b + {x});
    assert a - b == smaller + {x};
    assert a - c <= smaller;
    SubsetCardLe(a - c, smaller);
  }

  lemma {:induction false} SubsetCardLe(s: set<Id>, t: set<Id>)
    requires s <= t
    ensures |s| <= |t|
    decreases |t|
  {
    if s != {} {
      var y :| y in s;
      SubsetCardLe(s - {y}, t - {y});
    }
  }

  /** `n` copies of `v`. */
  function Fill(n: nat, v: nat): (r: seq<nat>)
    ensures |r| == n && forall i :: 0 <= i < n ==> r[i] == v
  {
    if n == 0 then [] else Fill(n - 1, v) + [v]
  }

  /** Every enqueued node is a pipe of the graph outside `E`, and each one
      after the first `r` was discovered by one of the first `listed`. */
  ghost predicate Placed(g: Graph, E: set<Id>, r: nat, order: seq<Node>, parent: seq<nat>, listed: nat) {
    |parent| == |order|
    && (forall k :: 0 <= k < |order| ==> order[k] in Nodes(g) && order[k].id !in E)
    && forall k :: r <= k < |order| ==>
         parent[k] < listed && parent[k] < k && order[k].id in TopIds(order[parent[k]].preds)
  }

  ghost predicate DistinctIds(order: seq<Node>) {
    forall a, b :: 0 <= a < b < |order| ==> order[a].id != order[b].id
  }

  /** The marked ids are those marked in advance and those enqueued. */
  ghost predicate Marked(E: set<Id>, order: seq<Node>, cache: set<Id>) {
    forall x :: x in cache <==> x in E || x in IdSeq(order)
  }

  /** The listed ids are the first enqueued nodes, and their direct inputs are marked. */
  ghost predicate Expanded(order: seq<Node>, dps: seq<Id>, cache: set<Id>) {
    |dps| <= |order|
    && forall k :: 0 <= k < |dps| ==> dps[k] == order[k].id && TopIds(order[k].preds) <= cache
  }

  /** The state of the queue loop. `order` is every node ever enqueued, in
      order: `dps` lists the first `|dps|` of them and the queue holds the
      rest; `parent[k]` is the listed node that discovered node `k`; `cache`
      is the marked set, `E` the part marked in advance, `roots` the nodes
      enqueued first. */
  ghost predicate BfsInv(g: Graph, E: set<Id>, roots: seq<Node>, order: seq<Node>, parent: seq<nat>,
                         dps: seq<Id>, cache: set<Id>) {
    Placed(g, E, |roots|, order, parent, |dps|) && DistinctIds(order)
    && Marked(E, order, cache) && Expanded(order, dps, cache)
    && TopIds(g) <= cache
    && |roots| <= |order| && order[..|roots|] == roots
  }

  /** Listing the head of the queue and enqueueing its unmarked inputs keeps
      the invariant, and either marks a new id of the graph or shortens the queue. */
  lemma BfsStep(g: Graph, E: set<Id>, roots: seq<Node>, order: seq<Node>, parent: seq<nat>,
                dps: seq<Id>, cache: set<Id>)
    returns (order': seq<Node>, parent': seq<nat>, dps': seq<Id>, cache': set<Id>)
    requires BfsInv(g, E, roots, order, parent, dps, cache) && |dps| < |order|
    ensures var added := FreshNodes(order[|dps|].preds.nodes, cache);
            order' == order + added && dps' == dps + [order[|dps|].id]
            && cache' == cache + Elems(IdSeq(added))
    ensures BfsInv(g, E, roots, order', parent', dps', cache')
    ensures |Ids(g) - cache'| < |Ids(g) - cache| || (order' == order && cache' == cache)
  {
    var head := |dps|;
    var n := order[head];
    var added := FreshNodes(n.preds.nodes, cache);
    cache' := cache + Elems(IdSeq(added));
    order' := order + added;
    parent' := parent + Fill(|added|, head);
    dps' := dps + [n.id];
    StepPlaced(g, E, |roots|, order, parent, head, cache);
    StepDistinct(E, order, n.preds.nodes, cache);
    StepMarked(E, order, added, cache);
    StepExpanded(order, dps, cache);
    assert order'[..|roots|] == order[..|roots|];
    if added != [] {
      assert added[0] in added && added[0].id in IdSeq(added);
      SubsetCard(Ids(g), cache, cache', added[0].id);
    }
  }

  lemma StepPlaced(g: Graph, E: set<Id>, r: nat, order: seq<Node>, parent: seq<nat>, head: nat, cache: set<Id>)
    requires Placed(g, E, r, order, parent, head) && head < |order| && E <= cache
    ensures var added := FreshNodes(order[head].preds.nodes, cache);
            Placed(g, E, r, order + added, parent + Fill(|added|, head), head + 1)
  {
    var n := order[head];
    var added := FreshNodes(n.preds.nodes, cache);
    var order', parent' := order + added, parent + Fill(|added|, head);
    PredsInside(g, n);
    forall k | 0 <= k < |order'|
      ensures order'[k] in Nodes(g) && order'[k].id !in E
      ensures r <= k ==> parent'[k] < head + 1 && parent'[k] < k && order'[k].id in TopIds(order'[parent'[k]].preds)
    {
      if k < |order| {
        assert order'[k] == order[k] && parent'[k] == parent[k];
      } else {
        var m := added[k - |order|];
        assert order'[k] == m && m in added;
        var j :| 0 <= j < |n.preds.nodes| && n.preds.nodes[j] == m;
        TopNodes(n.preds, j);
        assert parent'[k] == head && order'[head] == n;
      }
    }
  }

  lemma StepDistinct(E: set<Id>, order: seq<Node>, ns: seq<Node>, cache: set<Id>)
    requires DistinctIds(order) && Marked(E, order, cache)
    ensures DistinctIds(order + FreshNodes(ns, cache))
  {
    var added := FreshNodes(ns, cache);
    forall k | 0 <= k < |order| ensures order[k].id in cache {
      assert IdSeq(order)[k] == order[k].id;
    }
    DistinctAppend(order, added, cache);
  }

  lemma StepMarked(E: set<Id>, order: seq<Node>, added: seq<Node>, cache: set<Id>)
    requires Marked(E, order, cache)
    ensures Marked(E, order + added, cache + Elems(IdSeq(added)))
  {
    IdSeqConcat(order, added);
  }

  lemma StepExpanded(order: seq<Node>, dps: seq<Id>, cache: set<Id>)
    requires Expanded(order, dps, cache) && |dps| < |order|
    ensures var n := order[|dps|];
            var added := FreshNodes(n.preds.nodes, cache);
            Expanded(order + added, dps + [n.id], cache + Elems(IdSeq(added)))
  {
    var n := order[|dps|];
    var added := FreshNodes(n.preds.nodes, cache);
    var order', dps' := order + added, dps + [n.id];
    var cache' := cache + Elems(IdSeq(added));
    forall x | x in TopIds(n.preds) ensures x in cache' {
      var m :| m in n.preds.nodes && m.id == x;
    }
    forall k | 0 <= k < |dps'| ensures dps'[k] == order'[k].id && TopIds(order'[k].preds) <= cache' {
      assert order'[k] == order[k];
      if k < |dps| {
        assert dps'[k] == dps[k];
      }
    }
  }

  /** The queue loop of `list_dps` over a graph, with the ids in `cache0`
      already marked: the returned list starts with the unmarked top-level
      entries, and each later pipe was discovered as a direct input of a pipe
      listed before it. */
  method Bfs(g: Graph, cache0: set<Id>) returns (dps: seq<Id>)
    ensures NoDups(dps)
    ensures forall x :: x in dps ==> x in Ids(g) && x !in cache0
    ensures Consistent(g) && Closed(Nodes(g), cache0) ==> Complete(g, cache0, dps)
    ensures RootsFirst(g, cache0, dps) && Discovered(g, cache0, dps)
  {
    var q: seq<Node>, cache := Enqueue(g.nodes, [], cache0);
    ghost var roots := FreshNodes(g.nodes, cache0);
    assert q == roots;
    ghost var order := q;
    ghost var parent: seq<nat> := seq(|q|, k => 0);
    dps := [];
    BfsInit(g, cache0, parent, cache);
    while q != []
      invariant BfsInv(g, cache0, roots, order, parent, dps, cache) && q == order[|dps|..]
      decreases |Ids(g) - cache|, |q|
    {
      ghost var order', parent', dps', cache' := BfsStep(g, cache0, roots, order, parent, dps, cache);
      var n := q[0];
      assert n == order[|dps|];
      SliceAppend(order, FreshNodes(n.preds.nodes, cache), |dps| + 1);
      q := q[1..];
      dps := dps + [n.id];
      q, cache := Enqueue(n.preds.nodes, q, cache);
      assert q == order'[|dps|..] && dps == dps' && cache == cache';
      parent, order := parent', order';
    }
    BfsResult(g, cache0, roots, order, parent, dps, cache);
  }

  /** The invariant holds once the top-level entries are enqueued. */
  lemma BfsInit(g: Graph, E: set<Id>, parent: seq<nat>, cache: set<Id>)
    requires |parent| == |FreshNodes(g.nodes, E)|
    requires cache == E + Elems(IdSeq(FreshNodes(g.nodes, E)))
    ensures BfsInv(g, E, FreshNodes(g.nodes, E), FreshNodes(g.nodes, E), parent, [], cache)
  {
    var roots := FreshNodes(g.nodes, E);
    forall n | n in roots ensures n in Nodes(g) {
      var j :| 0 <= j < |g.nodes| && g.nodes[j] == n;
      TopNodes(g, j);
    }
    forall a, b | 0 <= a < b < |roots| ensures roots[a].id != roots[b].id {
      assert IdSeq(roots)[a] == roots[a].id && IdSeq(roots)[b] == roots[b].id;
    }
    forall x | x in TopIds(g) ensures x in cache {
      var m :| m in g.nodes && m.id == x;
    }
    assert roots[..|roots|] == roots;
  }

  /** What the invariant says once the queue is empty. */
  lemma BfsResult(g: Graph, cache0: set<Id>, roots: seq<Node>, order: seq<Node>, parent: seq<nat>,
                  dps: seq<Id>, cache: set<Id>)
    requires BfsInv(g, cache0, roots, order, parent, dps, cache) && |dps| == |order|
    requires roots == FreshNodes(g.nodes, cache0)
    ensures NoDups(dps)
    ensures forall x :: x in dps ==> x in Ids(g) && x !in cache0
    ensures Consistent(g) && Closed(Nodes(g), cache0) ==> Complete(g, cache0, dps)
    ensures RootsFirst(g, cache0, dps) && Discovered(g, cache0, dps)
  {
    assert Expanded(order, dps, cache);
    assert IdSeq(order) == dps;
    assert NoDups(dps) by {
      assert DistinctIds(order);
    }
    assert forall x :: x in dps ==> x in Ids(g) && x !in cache0 by {
      assert Placed(g, cache0, |roots|, order, parent, |dps|);
      forall x | x in dps ensures x in Ids(g) && x !in cache0 {
        var k :| 0 <= k < |dps| && dps[k] == x;
        assert order[k] in Nodes(g);
      }
    }
    if Consistent(g) && Closed(Nodes(g), cache0) {
      AllListed(g, cache0, order, cache);
    }
    assert RootsFirst(g, cache0, dps) by {
      assert IdSeq(roots) == dps[..|roots|];
    }
    DiscoveredByParent(g, cache0, |roots|, order, parent, dps);
  }

  lemma DiscoveredByParent(g: Graph, E: set<Id>, r: nat, order: seq<Node>, parent: seq<nat>, dps: seq<Id>)
    requires Placed(g, E, r, order, parent, |dps|) && |dps| == |order|
    requires forall k :: 0 <= k < |dps| ==> dps[k] == order[k].id
    requires r == |FreshNodes(g.nodes, E)|
    ensures Discovered(g, E, dps)
  {
    forall k | r <= k < |dps|
      ensures FoundVia(g, dps, k)
    {
      var j := parent[k];
      var m := order[j];
      assert 0 <= j < k && m in Nodes(g) && m.id == dps[j] && dps[k] in TopIds(m.preds);
    }
  }

  lemma SliceAppend<X>(a: seq<X>, b: seq<X>, i: nat)
    requires i <= |a|
    ensures (a + b)[i..] == a[i..] + b
  {
  }

  /** When the queue is empty, on a consistent graph whose advance marks are
      closed under inputs, every pipe not marked in advance was listed. */
  lemma AllListed(g: Graph, cache0: set<Id>, order: seq<Node>, cache: set<Id>)
    requires Consistent(g) && Closed(Nodes(g), cache0)
    requires forall k :: 0 <= k < |order| ==> order[k] in Nodes(g)
    requires forall x :: x in cache <==> x in cache0 || x in IdSeq(order)
    requires forall k :: 0 <= k < |order| ==> TopIds(order[k].preds) <= cache
    requires TopIds(g) <= cache
    ensures forall x :: x in Ids(g) && x !in cache0 ==> x in IdSeq(order)
  {
    var P := set k | 0 <= k < |order| :: order[k];
    assert cache <= cache0 + IdsOf(P) by {
      forall x | x in cache && x !in cache0 ensures x in IdsOf(P) {
        var j :| 0 <= j < |order| && IdSeq(order)[j] == x;
        assert order[j] in P;
      }
    }
    forall m | m in P ensures TopIds(m.preds) <= cache0 + IdsOf(P) {
      var k :| 0 <= k < |order| && order[k] == m;
    }
    Reached(Nodes(g), g, cache0, P);
    forall x | x in Ids(g) && x !in cache0 ensures x in IdSeq(order) {
      var n :| n in Nodes(g) && n.id == x;
      var k :| 0 <= k < |order| && order[k] == n;
      assert IdSeq(order)[k] == x;
    }
  }

  /** Distinct ids, marked in `C`, followed by distinct ids outside `C`, are distinct. */
  lemma DistinctAppend(order: seq<Node>, added: seq<Node>, C: set<Id>)
    requires forall a, b :: 0 <= a < b < |order| ==> order[a].id != order[b].id
    requires forall k :: 0 <= k < |order| ==> order[k].id in C
    requires forall n :: n in added ==> n.id !in C
    requires NoDups(IdSeq(added))
    ensures forall a, b :: 0 <= a < b < |order + added| ==> (order + added)[a].id != (order + added)[b].id
  {
    var s := order + added;
    forall a, b | 0 <= a < b < |s| ensures s[a].id != s[b].id {
      if b >= |order| {
        assert s[b] == added[b - |order|] && s[b] in added;
        if a >= |order| {
          assert IdSeq(added)[a - |order|] == s[a].id;
          assert IdSeq(added)[b - |order|] == s[b].id;
        }
      }
    }
  }

  /** Once the queue is empty, every pipe not marked in advance has been
      listed: the top level is marked, a listed pipe's inputs are marked, and a
      pipe marked in advance has only inputs marked in advance. */
  lemma {:induction false} Reached(U: set<Node>, h: Graph, E: set<Id>, P: set<Node>)
    requires ConsistentSet(U) && Nodes(h) <= U && Closed(U, E) && P <= U
    requires TopIds(h) <= E + IdsOf(P)
    requires forall m :: m in P ==> TopIds(m.preds) <= E + IdsOf(P)
    ensures forall n :: n in Nodes(h) && n.id !in E ==> n in P
    decreases h, 1
  {
    ReachedFrom(U, h, 0, E, P);
  }

  lemma {:induction false} ReachedFrom(U: set<Node>, h: Graph, i: nat, E: set<Id>, P: set<Node>)
    requires i <= |h.nodes| && ConsistentSet(U) && Nodes(h) <= U && Closed(U, E) && P <= U
    requires TopIds(h) <= E + IdsOf(P)
    requires forall m :: m in P ==> TopIds(m.preds) <= E + IdsOf(P)
    ensures forall n :: n in NodesFrom(h, i) && n.id !in E ==> n in P
    decreases h, 0, |h.nodes| - i
  {
    if i < |h.nodes| {
      var n := h.nodes[i];
      TopNodes(h, i);
      ReachedFrom(U, h, i + 1, E, P);
      assert n.id in TopIds(h);
      if n.id !in E {
        var m :| m in P && m.id == n.id;
        assert m == n;
        Reached(U, n.preds, E, P);
      } else {
        assert Ids(n.preds) <= E;
      }
    }
  }
}
