/** `unzip`: fan a stream of fixed-length sequences out into one child per kept column. */
module UnZip {
  import opened Common

  /** Every column was skipped (a RuntimeError in the source). */
  datatype UnzipError = RuntimeError

  /** A child indexing an item shorter than its column (an IndexError). */
  datatype ChildError = IndexError

  /** Whether column `i` survives `columns_to_skip` (`None` skips nothing). */
  predicate Kept(columnsToSkip: Option<seq<int>>, i: int) {
    columnsToSkip.None? || i !in columnsToSkip.value
  }

  /** The `instance_ids` comprehension of `UnZipperIterDataPipe.__new__`: the
      indices of `range(sequence_length)` from `from` on that are not skipped. */
  function InstanceIdsFrom(sequenceLength: int, columnsToSkip: Option<seq<int>>, from: nat): (ids: seq<nat>)
    ensures forall j :: 0 <= j < |ids| ==> from <= ids[j] < sequenceLength && Kept(columnsToSkip, ids[j])
    ensures forall j, k :: 0 <= j < k < |ids| ==> ids[j] < ids[k]
    ensures forall i :: from <= i < sequenceLength && Kept(columnsToSkip, i) ==> i in ids
    decreases sequenceLength - from
  {
    if from >= sequenceLength then []
    else
      var rest := InstanceIdsFrom(sequenceLength, columnsToSkip, from + 1);
      if Kept(columnsToSkip, from) then [from] + rest else rest
  }

  function InstanceIds(sequenceLength: int, columnsToSkip: Option<seq<int>>): (ids: seq<nat>)
  {
    InstanceIdsFrom(sequenceLength, columnsToSkip, 0)
  }

  /** `_UnZipperIterDataPipe.get_next_element_by_instance`: the items child
      `instanceId` yields, column `instance_ids[instanceId]` of each source item,
      stopping with an IndexError at the first item too short for the column. */
  function ChildItems<T>(source: seq<seq<T>>, instanceIds: seq<nat>, instanceId: nat): (s: Stream<T, ChildError>)
    requires instanceId < |instanceIds|
    ensures |s.items| <= |source|
    ensures forall k :: 0 <= k < |s.items| ==>
              instanceIds[instanceId] < |source[k]| && s.items[k] == source[k][instanceIds[instanceId]]
    ensures s.err.None? <==> forall k :: 0 <= k < |source| ==> instanceIds[instanceId] < |source[k]|
    ensures s.err.Some? ==> |s.items| < |source| && |source[|s.items|]| <= instanceIds[instanceId]
    ensures s.err.None? ==> |s.items| == |source|
    decreases |source|
  {
    var col := instanceIds[instanceId];
    if source == [] then Stream([], None)
    else if |source[0]| <= col then Stream([], Some(IndexError))
    else
      var rest := ChildItems(source[1..], instanceIds, instanceId);
      Stream([source[0][col]] + rest.items, rest.err)
  }

  /** `UnZipperIterDataPipe.__new__`: one child per kept column, or a
      RuntimeError when every column is filtered out. */
  function UnZip<T>(source: seq<seq<T>>, sequenceLength: int, columnsToSkip: Option<seq<int>>)
    : (r: Result<seq<Stream<T, ChildError>>, UnzipError>)
    ensures r.Err? <==> InstanceIds(sequenceLength, columnsToSkip) == []
    ensures r.Ok? ==> |r.value| == |InstanceIds(sequenceLength, columnsToSkip)|
    ensures r.Ok? ==> forall j :: 0 <= j < |r.value| ==>
              r.value[j] == ChildItems(source, InstanceIds(sequenceLength, columnsToSkip), j)
  {
    var ids := InstanceIds(sequenceLength, columnsToSkip);
    if |ids| == 0 then Err(RuntimeError)
    else Ok(seq(|ids|, j requires 0 <= j < |ids| => ChildItems(source, ids, j)))
  }

  /** With nothing skipped, the children are exactly the columns `0 .. sequence_length - 1`. */
  lemma {:induction false} NoSkipKeepsAll(sequenceLength: nat, from: nat)
    requires from <= sequenceLength
    ensures InstanceIdsFrom(sequenceLength, None, from) == seq(sequenceLength - from, j => from + j)
    decreases sequenceLength - from
  {
    if from < sequenceLength {
      NoSkipKeepsAll(sequenceLength, from + 1);
    }
  }

  /** Skipping every column of a non-empty sequence fails with a RuntimeError. */
  lemma SkipAllFails<T>(source: seq<seq<T>>, sequenceLength: nat)
    ensures UnZip(source, sequenceLength, Some(seq(sequenceLength, j => j))).Err?
  {
    SkipAllFrom(sequenceLength, 0);
  }

  lemma {:induction false} SkipAllFrom(sequenceLength: nat, from: nat)
    ensures InstanceIdsFrom(sequenceLength, Some(seq(sequenceLength, j => j)), from) == []
    decreases sequenceLength - from
  {
    var all := seq(sequenceLength, j => j);
    if from < sequenceLength {
      assert all[from] == from;
      SkipAllFrom(sequenceLength, from + 1);
    }

  }

  /** With nothing skipped and every item of length `sequence_length`, child
      `j` yields exactly column `j` of the source, without error. */
  lemma NoSkipColumns<T>(source: seq<seq<T>>, n: nat)
    requires n > 0 && forall k :: 0 <= k < |source| ==> |source[k]| == n
    ensures var r := UnZip(source, n, None);
            r.Ok? && |r.value| == n
            && forall j :: 0 <= j < n ==>
                 r.value[j].err.None? && |r.value[j].items| == |source|
                 && forall k :: 0 <= k < |source| ==> r.value[j].items[k] == source[k][j]
  {
    NoSkipKeepsAll(n, 0);
    var ids := InstanceIds(n, None);
    assert |ids| == n && forall j :: 0 <= j < n ==> ids[j] == j;
  }
}
