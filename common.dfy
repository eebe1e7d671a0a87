/** Small value types shared by the stream combinators and the graph layer. */
module Common {

  datatype Option<+T> = None | Some(value: T)

  datatype Result<+R, +E> = Ok(value: R) | Err(error: E)

  /** What a pipe yields in one pass: the items it produced, then either
      normal exhaustion (`err == None`) or the exception that ended the pass. */
  datatype Stream<+X, +E> = Stream(items: seq<X>, err: Option<E>)

  /** The runtime capability of an argument, as the `isinstance` checks see it. */
  datatype PipeTag = IterPipe | MapPipe | NotAPipe

  /** The value a join produces before the optional key wrapping: either what
      the merge function returned, or the default pair of the two items. */
  datatype Merged<+A, +B, +M> = MergedBy(merged: M) | Pair(left: A, right: B)

  /** One yielded element of a join: `(key, res)` with `keep_key`, `res` otherwise. */
  datatype Emitted<+K, +X> = Keyed(key: K, value: X) | Bare(value: X)

  /** The element a join yields for a matched pair `(data, other)` under key `key`. */
  function Render<A, B, K, M>(keepKey: bool, mergeFn: Option<(A, B) -> M>, key: K, data: A, other: B)
    : Emitted<K, Merged<A, B, M>>
  {
    var res := if mergeFn.Some? then MergedBy(mergeFn.value(data, other)) else Pair(data, other);
    if keepKey then Keyed(key, res) else Bare(res)
  }

  predicate NoDups<T(==)>(s: seq<T>) {
    forall i, j :: 0 <= i < j < |s| ==> s[i] != s[j]
  }

  /** `part` is what a consumer sees of the pass `full` when it stops early:
      a prefix of its items, and the same ending if `part` ended in an error. */
  ghost predicate PassPrefix<X, E>(part: Stream<X, E>, full: Stream<X, E>) {
    |part.items| <= |full.items| && part.items == full.items[..|part.items|]
    && (part.err.Some? ==> part == full)
  }

  lemma ConsPrefix<X, E>(x: X, part: Stream<X, E>, full: Stream<X, E>)
    requires PassPrefix(part, full)
    ensures PassPrefix(Stream([x] + part.items, part.err), Stream([x] + full.items, full.err))
  {
    assert ([x] + full.items)[..|part.items| + 1] == [x] + full.items[..|part.items|];
  }

}
