/** `round_robin_demux`: fan one stream out into N child streams by position. */
module RoundRobin {
  import opened Common

  /** `num_instances < 1` is rejected with a ValueError. */
  datatype DemuxError = ValueError

  /** The list of child streams `round_robin_demux` returns, and whether it
      warned (the one-instance no-op). */
  datatype Demux<T> = Demux(children: seq<seq<T>>, warned: bool)

  /** `_round_robin_fn`: the branch that the item at position `idx` goes to. */
  function RoundRobinFn(idx: nat, numInstances: nat): (branch: nat)
    requires numInstances >= 1
    ensures branch < numInstances
    ensures idx < numInstances ==> branch == idx
  {
    idx % numInstances
  }

  /** `get_length_by_instance`: the length of child `instanceId`, computed
      from the source length `n` without consuming the stream. */
  function LengthByInstance(n: nat, numInstances: nat, instanceId: int): (len: nat)
    requires numInstances >= 1
  {
    var avgLength := n / numInstances;
    if n - avgLength * numInstances > instanceId then avgLength + 1 else avgLength
  }

  /** The items child `i` yields: the source items whose position is routed to `i`,
      in source order (the index tag added by `enumerate` is dropped again). */
  function Branch<T>(source: seq<T>, numInstances: nat, i: nat): seq<T>
    requires numInstances >= 1
    decreases |source|
  {
    if source == [] then []
    else
      var last := |source| - 1;
      Branch(source[..last], numInstances, i)
        + (if RoundRobinFn(last, numInstances) == i then [source[last]] else [])
  }

  /** `RoundRobinDemultiplexerIterDataPipe.__new__`. */
  function RoundRobinDemux<T>(source: seq<T>, numInstances: int): (r: Result<Demux<T>, DemuxError>)
    ensures r.Err? <==> numInstances < 1
    ensures numInstances == 1 ==> r == Ok(Demux([source], true))
    ensures numInstances > 1 ==> r.Ok? && !r.value.warned && |r.value.children| == numInstances
    ensures numInstances > 1 ==> forall i :: 0 <= i < numInstances ==>
              r.value.children[i] == Branch(source, numInstances, i)
    ensures r.Ok? ==> |r.value.children| == numInstances
                      && forall i :: 0 <= i < numInstances ==>
                           |r.value.children[i]| == LengthByInstance(|source|, numInstances, i)
  {
    if numInstances < 1 then Err(ValueError)
    else if numInstances == 1 then
      BranchLength(source, 1, 0);
      Ok(Demux([source], true))
    else
      var children := seq(numInstances, i requires 0 <= i < numInstances => Branch(source, numInstances, i));
      assert forall i :: 0 <= i < numInstances ==>
        |children[i]| == LengthByInstance(|source|, numInstances, i) by {
        forall i | 0 <= i < numInstances {
          BranchLength(source, numInstances, i);
        }
      }
      Ok(Demux(children, false))
  }

  /** Division facts for `n + 1` in terms of those for `n`. */
  lemma {:induction false} DivModStep(n: nat, d: nat)
    requires d >= 1
    ensures n % d < d - 1 ==> (n + 1) / d == n / d && (n + 1) % d == n % d + 1
    ensures n % d == d - 1 ==> (n + 1) / d == n / d + 1 && (n + 1) % d == 0
  {
    var q, r := n / d, n % d;
    assert n == q * d + r;
    if r < d - 1 {
      assert n + 1 == q * d + (r + 1);
      DivModUnique(n + 1, d, q, r + 1);
    } else {
      assert n + 1 == (q + 1) * d + 0;
      DivModUnique(n + 1, d, q + 1, 0);
    }
  }

  lemma DivModUnique(n: nat, d: nat, q: int, r: int)
    requires d >= 1 && 0 <= r < d && n == q * d + r
    ensures n / d == q && n % d == r
  {
    var q', r' := n / d, n % d;
    assert n == q' * d + r';
    if q > q' {
      assert (q - q') * d == q * d - q' * d;
      MulAtLeast(q - q', d);
    } else if q < q' {
      assert (q' - q) * d == q' * d - q * d;
      MulAtLeast(q' - q, d);
    }
  }

  lemma {:induction false} MulAtLeast(a: int, d: nat)
    requires a >= 1
    ensures a * d >= d
  {
    if a > 1 {
      MulAtLeast(a - 1, d);
      assert a * d == (a - 1) * d + d;
    }
  }

  /** Routing repeats with period N: positions `p` and `p + N` go to the same child. */
  lemma RoutingPeriodic(idx: nat, numInstances: nat)
    requires numInstances >= 1
    ensures RoundRobinFn(idx + numInstances, numInstances) == RoundRobinFn(idx, numInstances)
  {
    var q, r := idx / numInstances, idx % numInstances;
    assert idx + numInstances == (q + 1) * numInstances + r;
    DivModUnique(idx + numInstances, numInstances, q + 1, r);
  }

  /** The analytic length is the number of positions below `n` routed to `i`. */
  lemma {:induction false} LengthStep(n: nat, d: nat, i: nat)
    requires d >= 1 && i < d
    ensures LengthByInstance(n + 1, d, i)
            == LengthByInstance(n, d, i) + (if RoundRobinFn(n, d) == i then 1 else 0)
  {
    DivModStep(n, d);
    assert n - (n / d) * d == n % d;
    assert (n + 1) - ((n + 1) / d) * d == (n + 1) % d;
  }

  /** Child `i` has exactly `get_length_by_instance(i)` items. */
  lemma {:induction false} BranchLength<T>(source: seq<T>, numInstances: nat, i: nat)
    requires numInstances >= 1 && i < numInstances
    ensures |Branch(source, numInstances, i)| == LengthByInstance(|source|, numInstances, i)
    decreases |source|
  {
    if source == [] {
      assert LengthByInstance(0, numInstances, i) == 0;
    } else {
      var last := |source| - 1;
      BranchLength(source[..last], numInstances, i);
      LengthStep(last, numInstances, i);
    }
  }

  /** The k-th item of child `i` is the source item at position `k * N + i`. */
  lemma {:induction false} BranchAt<T>(source: seq<T>, numInstances: nat, i: nat, k: nat)
    requires numInstances >= 1 && i < numInstances
    requires k < |Branch(source, numInstances, i)|
    ensures k * numInstances + i < |source|
    ensures Branch(source, numInstances, i)[k] == source[k * numInstances + i]
    decreases |source|
  {
    var last := |source| - 1;
    var prefix := Branch(source[..last], numInstances, i);
    if k < |prefix| {
      BranchAt(source[..last], numInstances, i, k);
    } else {
      BranchLength(source[..last], numInstances, i);
      assert RoundRobinFn(last, numInstances) == i;
      RoutedPosition(last, numInstances, i);
    }
  }

  /** The position `n` routed to child `i` is the next slot of that child. */
  lemma RoutedPosition(n: nat, numInstances: nat, i: nat)
    requires numInstances >= 1 && i < numInstances && n % numInstances == i
    ensures LengthByInstance(n, numInstances, i) * numInstances + i == n
  {
    var q := n / numInstances;
    assert n == q * numInstances + i;
    assert n - q * numInstances == i;
    assert LengthByInstance(n, numInstances, i) == q;
  }

  /** The lengths of all children add up to the source length. */
  lemma {:induction false} LengthsSum(n: nat, numInstances: nat)
    requires numInstances >= 1
    ensures SumLengths(n, numInstances, numInstances) == n
  {
    SumLengthsPrefix(n, numInstances, numInstances);
    assert n == (n / numInstances) * numInstances + n % numInstances;
  }

  function SumLengths(n: nat, numInstances: nat, k: nat): nat
    requires numInstances >= 1
  {
    if k == 0 then 0 else SumLengths(n, numInstances, k - 1) + LengthByInstance(n, numInstances, k - 1)
  }

  lemma {:induction false} SumLengthsPrefix(n: nat, numInstances: nat, k: nat)
    requires numInstances >= 1 && k <= numInstances
    ensures SumLengths(n, numInstances, k)
            == k * (n / numInstances) + (if k < n % numInstances then k else n % numInstances)
  {
    assert n - (n / numInstances) * numInstances == n % numInstances;
    if k > 0 {
      SumLengthsPrefix(n, numInstances, k - 1);
    }
  }

  /** Children are balanced: lower-numbered children are never shorter, and
      any two child lengths differ by at most one. */
  lemma BranchLengthsBalanced(n: nat, numInstances: nat, i: nat, j: nat)
    requires numInstances >= 1 && i <= j < numInstances
    ensures LengthByInstance(n, numInstances, j) <= LengthByInstance(n, numInstances, i)
            <= LengthByInstance(n, numInstances, j) + 1
  {
  }

  /** The documented example: `range(5)` split in two gives `[0, 2, 4]` and `[1, 3]`. */
  lemma RoundRobinExample()
    ensures RoundRobinDemux([0, 1, 2, 3, 4], 2) == Ok(Demux([[0, 2, 4], [1, 3]], false))
    ensures LengthByInstance(5, 2, 0) == 3 && LengthByInstance(5, 2, 1) == 2
  {
    var s := [0, 1, 2, 3, 4];
    EvenPositions();
    OddPositions();
    var children := seq(2, i requires 0 <= i < 2 => Branch(s, 2, i));
    assert children == [[0, 2, 4], [1, 3]];
    BranchLength(s, 2, 0);
    BranchLength(s, 2, 1);
  }

  /** Child 0 of two takes positions 0, 2 and 4. */
  lemma EvenPositions()
    ensures Branch([0, 1, 2, 3, 4], 2, 0) == [0, 2, 4]
  {
    assert [0, 1, 2, 3, 4][..4] == [0, 1, 2, 3] && [0, 1, 2, 3][..3] == [0, 1, 2];
    assert [0, 1, 2][..2] == [0, 1] && [0, 1][..1] == [0] && [0][..0] == [];
    assert Branch([0], 2, 0) == [0];
    assert Branch([0, 1], 2, 0) == [0];
    assert Branch([0, 1, 2], 2, 0) == [0, 2];
    assert Branch([0, 1, 2, 3], 2, 0) == [0, 2];
  }

  /** Child 1 of two takes positions 1 and 3. */
  lemma OddPositions()
    ensures Branch([0, 1, 2, 3, 4], 2, 1) == [1, 3]
  {
    assert [0, 1, 2, 3, 4][..4] == [0, 1, 2, 3] && [0, 1, 2, 3][..3] == [0, 1, 2];
    assert [0, 1, 2][..2] == [0, 1] && [0, 1][..1] == [0] && [0][..0] == [];
    assert Branch([0], 2, 1) == [];
    assert Branch([0, 1], 2, 1) == [1];
    assert Branch([0, 1, 2], 2, 1) == [1];
    assert Branch([0, 1, 2, 3], 2, 1) == [1, 3];
  }
}
