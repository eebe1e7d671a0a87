/** `zip_with_map`: join a stream against a random-access lookup by key. */
module MapKeyZip {
  import opened Common

  /** `map_datapipe` is not a MapDataPipe. */
  datatype ConstructError = TypeError

  /** The key computed for an item is not a key of the lookup (a KeyError). */
  datatype LookupError = KeyError

  /** A constructed `MapKeyZipperIterDataPipe`; the lookup pipe is its table. */
  datatype MapKeyZipper<!T, K(==), !V, M> = MapKeyZipper(
    source: seq<T>,
    table: map<K, V>,
    keyFn: T -> K,
    mergeFn: Option<(T, V) -> M>,
    keepKey: bool)

  /** `MapKeyZipperIterDataPipe.__init__`: only a MapDataPipe is accepted as the lookup. */
  function NewMapKeyZipper<T, K, V, M>(
    source: seq<T>, mapTag: PipeTag, table: map<K, V>, keyFn: T -> K,
    mergeFn: Option<(T, V) -> M>, keepKey: bool)
    : (r: Result<MapKeyZipper<T, K, V, M>, ConstructError>)
    ensures r.Err? <==> mapTag != MapPipe
    ensures r.Ok? ==> r.value.source == source && r.value.table == table && r.value.keepKey == keepKey
    ensures r.Ok? ==> r.value.keyFn == keyFn && r.value.mergeFn == mergeFn
  {
    if mapTag != MapPipe then Err(TypeError)
    else Ok(MapKeyZipper(source, table, keyFn, mergeFn, keepKey))
  }

  /** One pass of `MapKeyZipperIterDataPipe.__iter__` over `source`: each item
      joined with `table[key_fn(item)]` in source order, stopping with a
      KeyError at the first item whose key is missing. */
  function ZipWithMap<T, K, V, M>(
    source: seq<T>, table: map<K, V>, keyFn: T -> K, mergeFn: Option<(T, V) -> M>, keepKey: bool)
    : (s: Stream<Emitted<K, Merged<T, V, M>>, LookupError>)
    ensures |s.items| <= |source|
    ensures forall i :: 0 <= i < |s.items| ==>
              keyFn(source[i]) in table
              && s.items[i] == Render(keepKey, mergeFn, keyFn(source[i]), source[i], table[keyFn(source[i])])
    ensures s.err.None? <==> forall i :: 0 <= i < |source| ==> keyFn(source[i]) in table
    ensures s.err.None? ==> |s.items| == |source|
    ensures s.err.Some? ==> |s.items| < |source| && keyFn(source[|s.items|]) !in table
    decreases |source|
  {
    if source == [] then Stream([], None)
    else
      var key := keyFn(source[0]);
      if key !in table then Stream([], Some(KeyError))
      else
        var rest := ZipWithMap(source[1..], table, keyFn, mergeFn, keepKey);
        Stream([Render(keepKey, mergeFn, key, source[0], table[key])] + rest.items, rest.err)
  }

  /** `__iter__` of a constructed zipper. */
  function Iterate<T, K, V, M>(z: MapKeyZipper<T, K, V, M>): Stream<Emitted<K, Merged<T, V, M>>, LookupError>
  {
    ZipWithMap(z.source, z.table, z.keyFn, z.mergeFn, z.keepKey)
  }

  /** `__len__`: the length of the source, which is the number of items a
      pass yields whenever every key is found. */
  function Length<T, K, V, M>(z: MapKeyZipper<T, K, V, M>): (n: nat)
    ensures Iterate(z).err.None? ==> n == |Iterate(z).items|
  {
    |z.source|
  }

  /** Consuming only the first `k` items sees the same items as a full pass:
      the pass over a prefix is a prefix of the full pass. */
  lemma {:induction false} PrefixPass<T, K, V, M>(
    source: seq<T>, k: nat, table: map<K, V>, keyFn: T -> K, mergeFn: Option<(T, V) -> M>, keepKey: bool)
    requires k <= |source|
    ensures PassPrefix(ZipWithMap(source[..k], table, keyFn, mergeFn, keepKey),
                       ZipWithMap(source, table, keyFn, mergeFn, keepKey))
    decreases k
  {
    var prefix := source[..k];
    if k > 0 {
      assert prefix[0] == source[0];
      var key := keyFn(source[0]);
      if key in table {
        assert prefix[1..] == source[1..][..k - 1];
        PrefixPass(source[1..], k - 1, table, keyFn, mergeFn, keepKey);
        var x := Render(keepKey, mergeFn, key, source[0], table[key]);
        var restFull := ZipWithMap(source[1..], table, keyFn, mergeFn, keepKey);
        var restPart := ZipWithMap(prefix[1..], table, keyFn, mergeFn, keepKey);
        assert ZipWithMap(source, table, keyFn, mergeFn, keepKey) == Stream([x] + restFull.items, restFull.err);
        assert ZipWithMap(prefix, table, keyFn, mergeFn, keepKey) == Stream([x] + restPart.items, restPart.err);
        ConsPrefix(x, restPart, restFull);
      }
    }
  }

  /** The documented example: `[('a', 1), ('b', 2), ('c', 3)]` joined with
      `{'a': 100, 'b': 200, 'c': 300, 'd': 400}`, merging to `(key, sum)`. */
  lemma ZipWithMapExample()
    ensures var table := map["a" := 100, "b" := 200, "c" := 300, "d" := 400];
            var merge := (t: (string, int), v: int) => (t.0, t.1 + v);
            ZipWithMap([("a", 1), ("b", 2), ("c", 3)], table, (t: (string, int)) => t.0, Some(merge), false).items
            == [Bare(MergedBy(("a", 101))), Bare(MergedBy(("b", 202))), Bare(MergedBy(("c", 303)))]
  {
  }

  /** A key absent from the lookup raises a KeyError. */
  lemma MissingKeyExample()
    ensures var table := map["a" := 100];
            var noMerge: Option<((string, int), int) -> int> := None;
            ZipWithMap([("a", 1), ("z", 2)], table, (t: (string, int)) => t.0, noMerge, false)
            == Stream([Bare(Pair(("a", 1), 100))], Some(KeyError))
  {
    var src := [("a", 1), ("z", 2)];
    assert src[1..] == [("z", 2)];
  }
}
