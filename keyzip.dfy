/** `zip_with_iter`: join a source stream with a reference stream by key,
    holding not-yet-matched reference items in an insertion-ordered buffer. */
module IterKeyZip {
  import opened Common

  /** Construction errors: `ref_datapipe` is not an IterDataPipe (TypeError);
      a buffer size that is given but not positive (ValueError). */
  datatype ConstructError = TypeError | ValueError

  /** Matching errors raised during a pass: the reference stream ran out
      before the current key was found (BufferError); a reference key that is
      already buffered (ValueError in the source, named here for what it means). */
  datatype JoinError = BufferError | DuplicateKey

  type Output<K, T, M> = Emitted<K, Merged<T, T, M>>

  /** The arguments kept by `__init__`. `bufferSize == None` is the unbounded buffer. */
  datatype ZipConfig<!T, K, M> = ZipConfig(
    keyFn: T -> K,
    refKeyFn: T -> K,
    keepKey: bool,
    bufferSize: Option<int>,
    mergeFn: Option<(T, T) -> M>)

  predicate ValidConfig<T, K, M>(cfg: ZipConfig<T, K, M>) {
    cfg.bufferSize.Some? ==> cfg.bufferSize.value > 0
  }

  /** The argument checks of `IterKeyZipperIterDataPipe.__init__`, in source
      order; `ref_key_fn` defaults to `key_fn`. */
  function NewConfig<T(!new), K, M>(
    refTag: PipeTag, keyFn: T -> K, refKeyFn: Option<T -> K>, keepKey: bool,
    bufferSize: Option<int>, mergeFn: Option<(T, T) -> M>)
    : (r: Result<ZipConfig<T, K, M>, ConstructError>)
    ensures (r.Err? && r.error == TypeError) <==> refTag != IterPipe
    ensures (r.Err? && r.error == ValueError)
            <==> refTag == IterPipe && bufferSize.Some? && bufferSize.value <= 0
    ensures r.Ok? ==> ValidConfig(r.value) && r.value.keepKey == keepKey && r.value.bufferSize == bufferSize
    ensures r.Ok? ==> r.value.keyFn == keyFn && r.value.mergeFn == mergeFn
    ensures r.Ok? ==> forall x :: r.value.refKeyFn(x) == if refKeyFn.None? then keyFn(x) else refKeyFn.value(x)
  {
    if refTag != IterPipe then Err(TypeError)
    else if bufferSize.Some? && bufferSize.value <= 0 then Err(ValueError)
    else Ok(ZipConfig(keyFn, if refKeyFn.None? then keyFn else refKeyFn.value, keepKey, bufferSize, mergeFn))
  }

  // ---------------------------------------------------------------------------
  // The buffer: an insertion-ordered dictionary, as a sequence of entries.

  /** Where key `k` sits in the buffer, if it is there (`k in self.buffer`). */
  function Find<K(==), T>(buf: seq<(K, T)>, k: K): (r: Option<nat>)
    ensures r.Some? ==> r.value < |buf| && buf[r.value].0 == k
  {
    if buf == [] then None
    else if buf[0].0 == k then Some(0)
    else match Find(buf[1..], k)
      case None => None
      case Some(j) => Some(j + 1)
  }

  /** `Find` misses exactly the keys that are not in the buffer. */
  lemma {:induction false} FindNone<K, T>(buf: seq<(K, T)>, k: K)
    ensures Find(buf, k).None? <==> forall j :: 0 <= j < |buf| ==> buf[j].0 != k
  {
    if buf != [] && buf[0].0 != k {
      FindNone(buf[1..], k);
      assert forall j :: 1 <= j < |buf| ==> buf[j] == buf[1..][j - 1];
    }
  }

  predicate DistinctKeys<K(==), T>(buf: seq<(K, T)>) {
    forall i, j :: 0 <= i < j < |buf| ==> buf[i].0 != buf[j].0
  }

  /** The buffered values in insertion order, the order `janitor` sees them. */
  function Values<K, T>(buf: seq<(K, T)>): (vs: seq<T>)
    ensures |vs| == |buf| && forall j :: 0 <= j < |buf| ==> vs[j] == buf[j].1
  {
    seq(|buf|, j requires 0 <= j < |buf| => buf[j].1)
  }

  /** The buffer after `self.buffer[ref_key] = ref_data`, preceded by the FIFO
      eviction `popitem(last=False)` when the buffer already holds more than
      `buffer_size` entries; the flag records that the warning has been given. */
  function Admit<T, K, M>(cfg: ZipConfig<T, K, M>, buf: seq<(K, T)>, warned: bool, k: K, v: T)
    : (r: (seq<(K, T)>, bool))
    requires ValidConfig(cfg)
  {
    if cfg.bufferSize.Some? && |buf| > cfg.bufferSize.value then (buf[1..] + [(k, v)], true)
    else (buf + [(k, v)], warned)
  }

  /** Admission appends the new entry and evicts at most the oldest one, and
      only when the buffer is over its size; a buffer within `buffer_size + 1`
      entries stays within it, and the warning is given exactly on eviction. */
  lemma AdmitEvictsOldest<T, K, M>(cfg: ZipConfig<T, K, M>, buf: seq<(K, T)>, warned: bool, k: K, v: T)
    requires ValidConfig(cfg)
    ensures var r := Admit(cfg, buf, warned, k, v);
            var evicted := cfg.bufferSize.Some? && |buf| > cfg.bufferSize.value;
            r.0 == (if evicted then (buf + [(k, v)])[1..] else buf + [(k, v)])
            && (cfg.bufferSize.Some? && |buf| <= cfg.bufferSize.value + 1 ==> |r.0| <= cfg.bufferSize.value + 1)
            && (r.1 <==> warned || evicted)
  {
    if cfg.bufferSize.Some? && |buf| > cfg.bufferSize.value {
      assert buf[1..] + [(k, v)] == (buf + [(k, v)])[1..];
    }
  }

  // ---------------------------------------------------------------------------
  // One pass of `__iter__`, as a function of the inputs.

  /** The state of a pass: the buffer, how far the reference iterator has
      advanced, whether the eviction warning was given, and what was yielded. */
  datatype JoinState<K, T, M> = JoinState(buffer: seq<(K, T)>, refPos: nat, warned: bool, out: seq<Output<K, T, M>>)

  /** How the search for one key ended. */
  datatype Seeked<K, T, M> = Matched(st: JoinState<K, T, M>) | Failed(err: JoinError, st: JoinState<K, T, M>)

  /** How a pass ended: its final state and the error that ended it, if any. */
  datatype Pass<K, T, M> = Pass(st: JoinState<K, T, M>, err: Option<JoinError>)

  /** The inner `while key not in self.buffer` loop: pull reference items
      into the buffer until `key` is buffered. */
  function Seek<T, K(==), M>(cfg: ZipConfig<T, K, M>, refs: seq<T>, key: K, st: JoinState<K, T, M>)
    : (s: Seeked<K, T, M>)
    requires ValidConfig(cfg) && st.refPos <= |refs|
    ensures s.st.out == st.out && st.refPos <= s.st.refPos <= |refs|
    ensures s.Matched? ==> Find(s.st.buffer, key).Some?
    decreases |refs| - st.refPos
  {
    if Find(st.buffer, key).Some? then Matched(st)
    else if st.refPos == |refs| then Failed(BufferError, st)
    else
      var refData := refs[st.refPos];
      var refKey := cfg.refKeyFn(refData);
      if Find(st.buffer, refKey).Some? then Failed(DuplicateKey, st.(refPos := st.refPos + 1))
      else
        var a := Admit(cfg, st.buffer, st.warned, refKey, refData);
        Seek(cfg, refs, key, JoinState(a.0, st.refPos + 1, a.1, st.out))
  }

  /** The body of the outer loop once `key` is buffered: pop its entry and
      yield the rendered result. */
  function Emit<T, K(==), M>(cfg: ZipConfig<T, K, M>, data: T, st: JoinState<K, T, M>)
    : (st': JoinState<K, T, M>)
    requires Find(st.buffer, cfg.keyFn(data)).Some?
    ensures st'.refPos == st.refPos && st'.warned == st.warned
    ensures |st'.out| == |st.out| + 1 && st'.out[..|st.out|] == st.out
  {
    var key := cfg.keyFn(data);
    var j := Find(st.buffer, key).value;
    var item := Render(cfg.keepKey, cfg.mergeFn, key, data, st.buffer[j].1);
    var st' := st.(buffer := st.buffer[..j] + st.buffer[j + 1..], out := st.out + [item]);
    assert st'.out[..|st.out|] == st.out;
    st'
  }

  /** The outer `for data in self.source_datapipe` loop from position `i` on. */
  function Run<T, K(==), M>(cfg: ZipConfig<T, K, M>, source: seq<T>, refs: seq<T>, i: nat, st: JoinState<K, T, M>)
    : (p: Pass<K, T, M>)
    requires ValidConfig(cfg) && i <= |source| && st.refPos <= |refs|
    ensures p.st.refPos <= |refs|
    decreases |source| - i
  {
    if i == |source| then Pass(st, None)
    else
      var s := Seek(cfg, refs, cfg.keyFn(source[i]), st);
      if s.Failed? then Pass(s.st, Some(s.err))
      else Run(cfg, source, refs, i + 1, Emit(cfg, source[i], s.st))
  }

  /** A whole pass over `source`, starting from the buffer `init`
      (empty unless an earlier pass left entries behind). */
  function Join<T, K(==), M>(cfg: ZipConfig<T, K, M>, source: seq<T>, refs: seq<T>, init: seq<(K, T)>)
    : Pass<K, T, M>
    requires ValidConfig(cfg)
  {
    Run(cfg, source, refs, 0, JoinState(init, 0, false, []))
  }

  /** The source items a consumer makes the pass process: all of them, or
      only the first `k` when it takes `k` results and then abandons the pass. */
  function Taken<T>(source: seq<T>, demand: Option<nat>): (s: seq<T>)
    ensures s <= source
  {
    if demand.Some? && demand.value < |source| then source[..demand.value] else source
  }

  // ---------------------------------------------------------------------------
  // The pipe object.

  class IterKeyZipper<T, K(==), M> {
    const source: seq<T>
    const refs: seq<T>
    const cfg: ZipConfig<T, K, M>
    /** `self.buffer`, the OrderedDict from reference key to reference item. */
    var buffer: seq<(K, T)>

    ghost predicate Valid()
      reads this
    {
      ValidConfig(cfg) && DistinctKeys(buffer)
    }

    /** `__init__` after its argument checks passed (see `NewConfig`). */
    constructor (source: seq<T>, refs: seq<T>, cfg: ZipConfig<T, K, M>)
      requires ValidConfig(cfg)
      ensures Valid() && this.source == source && this.refs == refs && this.cfg == cfg
      ensures buffer == []
    {
      this.source := source;
      this.refs := refs;
      this.cfg := cfg;
      buffer := [];
    }

    /** `__len__`: the source length, which is the number of results the
        next pass yields when it does not fail. */
    function Length(): (n: nat)
      reads this
      requires Valid()
      ensures Join(cfg, source, refs, buffer).err.None? ==> |Join(cfg, source, refs, buffer).st.out| == n
    {
      RunCount(cfg, source, refs, 0, JoinState(buffer, 0, false, []));
      |source|
    }

    /** `reset`: a fresh, empty buffer. */
    method Reset()
      modifies this
      ensures buffer == []
    {
      buffer := [];
    }

    /** One pass of `__iter__`. The consumer takes `demand` results (all of
        them when `None`) and then stops; the `finally` block then hands every
        buffered item to `janitor` (returned here as `released`) and clears the
        buffer. A consumer that takes no result never starts the generator. */
    method Iterate(demand: Option<nat>)
      returns (out: seq<Output<K, T, M>>, err: Option<JoinError>, released: seq<T>, warned: bool)
      requires Valid()
      modifies this
      ensures Valid()
      ensures demand == Some(0) ==> buffer == old(buffer) && out == [] && err.None? && released == [] && !warned
      ensures demand != Some(0) ==>
                var p := Join(cfg, Taken(source, demand), refs, old(buffer));
                buffer == [] && out == p.st.out && err == p.err && released == Values(p.st.buffer)
                && warned == p.st.warned
    {
      out, err, released, warned := [], None, [], false;
      if demand == Some(0) {
        return;
      }
      var src := Taken(source, demand);
      out, err, warned := Feed(src);
      released := Release();
    }

    /** The body of the `try` block of `__iter__` over the items `src`: each
        item is matched through `Pull` and its buffered partner popped. */
    method Feed(src: seq<T>) returns (out: seq<Output<K, T, M>>, err: Option<JoinError>, warned: bool)
      requires Valid()
      modifies this
      ensures Valid()
      ensures var p := Join(cfg, src, refs, old(buffer));
              buffer == p.st.buffer && out == p.st.out && err == p.err && warned == p.st.warned
    {
      out, err := [], None;
      var refPos: nat := 0;
      var warnOnceFlag := true;
      var i := 0;
      while i < |src| && err.None?
        invariant 0 <= i <= |src| && refPos <= |refs| && Valid()
        invariant err.None? ==> Join(cfg, src, refs, old(buffer))
                                == Run(cfg, src, refs, i, JoinState(buffer, refPos, !warnOnceFlag, out))
        invariant err.Some? ==> Join(cfg, src, refs, old(buffer))
                                == Pass(JoinState(buffer, refPos, !warnOnceFlag, out), err)
        decreases |src| - i, if err.None? then 1 else 0
      {
        var data := src[i];
        var key := cfg.keyFn(data);
        ghost var before := JoinState(buffer, refPos, !warnOnceFlag, out);
        ghost var s := Seek(cfg, refs, key, before);
        refPos, warnOnceFlag, err := Pull(key, refPos, warnOnceFlag, out);
        if err.Some? {
          assert Run(cfg, src, refs, i, before) == Pass(s.st, Some(s.err));
        } else {
          assert Run(cfg, src, refs, i, before) == Run(cfg, src, refs, i + 1, Emit(cfg, data, s.st));
          ghost var matched := JoinState(buffer, refPos, !warnOnceFlag, out);
          var j := Find(buffer, key).value;
          var res := Render(cfg.keepKey, cfg.mergeFn, key, data, buffer[j].1);
          buffer := buffer[..j] + buffer[j + 1..];
          out := out + [res];
          i := i + 1;
          assert JoinState(buffer, refPos, !warnOnceFlag, out) == Emit(cfg, data, matched);
          EmitFacts(cfg, data, matched);
        }
      }
      warned := !warnOnceFlag;
    }

    /** The inner `while key not in self.buffer` loop of `__iter__`: pull
        reference items (from position `refPos` on) into the buffer until `key`
        is buffered, evicting the oldest entry, with a single warning, whenever
        the buffer is over `buffer_size`. */
    method Pull(key: K, refPos: nat, warnOnceFlag: bool, ghost out: seq<Output<K, T, M>>)
      returns (refPos': nat, warnOnceFlag': bool, err: Option<JoinError>)
      requires Valid() && refPos <= |refs|
      modifies this
      ensures Valid() && refPos' <= |refs|
      ensures var s := Seek(cfg, refs, key, JoinState(old(buffer), refPos, !warnOnceFlag, out));
              s.st == JoinState(buffer, refPos', !warnOnceFlag', out)
              && (if s.Matched? then err.None? else err == Some(s.err))
    {
      ghost var st0 := JoinState(buffer, refPos, !warnOnceFlag, out);
      refPos', warnOnceFlag', err := refPos, warnOnceFlag, None;
      var found := Find(buffer, key);
      while found.None? && err.None?
        invariant refPos' <= |refs| && Valid() && found == Find(buffer, key)
        invariant err.None? ==> Seek(cfg, refs, key, st0)
                                == Seek(cfg, refs, key, JoinState(buffer, refPos', !warnOnceFlag', out))
        invariant err.Some? ==> Seek(cfg, refs, key, st0)
                                == Failed(err.value, JoinState(buffer, refPos', !warnOnceFlag', out))
        decreases |refs| - refPos', if err.None? then 1 else 0
      {
        ghost var cur := JoinState(buffer, refPos', !warnOnceFlag', out);
        if refPos' == |refs| {
          assert Seek(cfg, refs, key, cur) == Failed(BufferError, cur);
          err := Some(BufferError);
        } else {
          var refData := refs[refPos'];
          refPos' := refPos' + 1;
          var refKey := cfg.refKeyFn(refData);
          if Find(buffer, refKey).Some? {
            assert Seek(cfg, refs, key, cur) == Failed(DuplicateKey, cur.(refPos := refPos'));
            err := Some(DuplicateKey);
          } else {
            ghost var before := JoinState(buffer, refPos' - 1, !warnOnceFlag', out);
            warnOnceFlag' := Push(refKey, refData, warnOnceFlag');
            ghost var a := Admit(cfg, before.buffer, before.warned, refKey, refData);
            assert Seek(cfg, refs, key, before) == Seek(cfg, refs, key, JoinState(a.0, refPos', a.1, out));
            found := Find(buffer, key);
          }
        }
      }
    }

    /** Buffering one reference item whose key is not buffered yet: when the
        buffer already holds more than `buffer_size` entries, the oldest one is
        dropped, with a warning the first time. */
    method Push(refKey: K, refData: T, warnOnceFlag: bool) returns (warnOnceFlag': bool)
      requires Valid() && Find(buffer, refKey).None?
      modifies this
      ensures Valid()
      ensures (buffer, !warnOnceFlag') == Admit(cfg, old(buffer), !warnOnceFlag, refKey, refData)
    {
      warnOnceFlag' := warnOnceFlag;
      AdmitDistinct(cfg, buffer, !warnOnceFlag, refKey, refData);
      if cfg.bufferSize.Some? && |buffer| > cfg.bufferSize.value {
        if warnOnceFlag' {
          warnOnceFlag' := false;
        }
        buffer := buffer[1..];
      }
      buffer := buffer + [(refKey, refData)];
    }

    /** The `finally` block of `__iter__`: every buffered item goes to
        `janitor`, oldest first, and the buffer is cleared. */
    method Release() returns (released: seq<T>)
      requires Valid()
      modifies this
      ensures Valid() && buffer == [] && released == Values(old(buffer))
    {
      released := [];
      var k := 0;
      while k < |buffer|
        invariant k <= |buffer| && released == Values(buffer[..k])
      {
        released := released + [buffer[k].1];
        k := k + 1;
      }
      assert buffer[..k] == buffer;
      buffer := [];
    }
  }

  // ---------------------------------------------------------------------------
  // Properties of a pass.

  /** Every buffered entry is a reference item stored under its own reference key. */
  ghost predicate FromRefs<T, K, M>(cfg: ZipConfig<T, K, M>, refs: seq<T>, buf: seq<(K, T)>) {
    forall e :: e in buf ==> e.1 in refs && cfg.refKeyFn(e.1) == e.0
  }

  /** Result `j` joins source item `j` with a reference item of the same key. */
  ghost predicate Matches<T, K, M>(cfg: ZipConfig<T, K, M>, source: seq<T>, refs: seq<T>, out: seq<Output<K, T, M>>) {
    |out| <= |source|
    && forall j :: 0 <= j < |out| ==>
         exists r :: r in refs && cfg.refKeyFn(r) == cfg.keyFn(source[j])
                     && out[j] == Render(cfg.keepKey, cfg.mergeFn, cfg.keyFn(source[j]), source[j], r)
  }

  ghost predicate Bounded<T, K, M>(cfg: ZipConfig<T, K, M>, buf: seq<(K, T)>) {
    cfg.bufferSize.Some? ==> |buf| <= cfg.bufferSize.value + 1
  }

  /** Every entry of the admitted buffer is an entry of `buf + [(k, v)]`,
      at the same distance from its end. */
  lemma AdmitShift<T, K, M>(cfg: ZipConfig<T, K, M>, buf: seq<(K, T)>, warned: bool, k: K, v: T)
    requires ValidConfig(cfg)
    ensures var r := Admit(cfg, buf, warned, k, v);
            var off := |buf| + 1 - |r.0|;
            (off == 0 || off == 1)
            && forall i :: 0 <= i < |r.0| ==> r.0[i] == (buf + [(k, v)])[off + i]
  {
    AdmitEvictsOldest(cfg, buf, warned, k, v);
  }

  /** Admitting a reference item under a key that is not buffered keeps the
      keys distinct. */
  lemma AdmitDistinct<T, K, M>(cfg: ZipConfig<T, K, M>, buf: seq<(K, T)>, warned: bool, k: K, v: T)
    requires ValidConfig(cfg) && Find(buf, k).None? && DistinctKeys(buf)
    ensures DistinctKeys(Admit(cfg, buf, warned, k, v).0)
  {
    var full := buf + [(k, v)];
    AdmitEvictsOldest(cfg, buf, warned, k, v);
    FindNone(buf, k);
    assert DistinctKeys(full) by {
      forall i, j | 0 <= i < j < |full| ensures full[i].0 != full[j].0 {
        assert full[i] == buf[i];
      }
    }
    DistinctSuffix(full, 1);
  }

  lemma DistinctSuffix<K, T>(s: seq<(K, T)>, off: nat)
    requires DistinctKeys(s) && off <= |s|
    ensures DistinctKeys(s[off..])
  {
    forall i, j | 0 <= i < j < |s| - off ensures s[off..][i].0 != s[off..][j].0 {
      assert s[off..][i] == s[off + i] && s[off..][j] == s[off + j];
    }
  }

  /** Admitting a reference item under its own key keeps every entry a
      reference item stored under its key. */
  lemma AdmitFromRefs<T, K, M>(cfg: ZipConfig<T, K, M>, refs: seq<T>, buf: seq<(K, T)>, warned: bool, v: T)
    requires ValidConfig(cfg) && v in refs && FromRefs(cfg, refs, buf)
    ensures FromRefs(cfg, refs, Admit(cfg, buf, warned, cfg.refKeyFn(v), v).0)
  {
    var k := cfg.refKeyFn(v);
    var full := buf + [(k, v)];
    AdmitEvictsOldest(cfg, buf, warned, k, v);
    assert FromRefs(cfg, refs, full) by {
      forall e | e in full ensures e.1 in refs && cfg.refKeyFn(e.1) == e.0 {
        if e != (k, v) {
          assert e in buf;
        }
      }
    }
    assert forall e :: e in full[1..] ==> e in full;
  }

  /** The buffer invariants the inner loop keeps. */
  lemma {:induction false} SeekKeeps<T, K, M>(cfg: ZipConfig<T, K, M>, refs: seq<T>, key: K, st: JoinState<K, T, M>)
    requires ValidConfig(cfg) && st.refPos <= |refs|
    ensures var s := Seek(cfg, refs, key, st);
            (DistinctKeys(st.buffer) ==> DistinctKeys(s.st.buffer))
            && (FromRefs(cfg, refs, st.buffer) ==> FromRefs(cfg, refs, s.st.buffer))
            && (Bounded(cfg, st.buffer) ==> Bounded(cfg, s.st.buffer))
            && (st.warned ==> s.st.warned)
            && (s.st.warned ==> st.warned || cfg.bufferSize.Some?)
    decreases |refs| - st.refPos
  {
    if Find(st.buffer, key).None? && st.refPos < |refs| {
      var refData := refs[st.refPos];
      var refKey := cfg.refKeyFn(refData);
      if Find(st.buffer, refKey).None? {
        var a := Admit(cfg, st.buffer, st.warned, refKey, refData);
        AdmitEvictsOldest(cfg, st.buffer, st.warned, refKey, refData);
        if DistinctKeys(st.buffer) {
          AdmitDistinct(cfg, st.buffer, st.warned, refKey, refData);
        }
        if FromRefs(cfg, refs, st.buffer) {
          AdmitFromRefs(cfg, refs, st.buffer, st.warned, refData);
        }
        SeekKeeps(cfg, refs, key, JoinState(a.0, st.refPos + 1, a.1, st.out));
        assert Seek(cfg, refs, key, st) == Seek(cfg, refs, key, JoinState(a.0, st.refPos + 1, a.1, st.out));
      }
    }
  }

  /** How the inner loop can fail: BufferError only once the reference stream
      is exhausted with the key still missing; DuplicateKey only for a
      reference key that is already buffered. */
  lemma {:induction false} SeekFailures<T, K, M>(cfg: ZipConfig<T, K, M>, refs: seq<T>, key: K, st: JoinState<K, T, M>)
    requires ValidConfig(cfg) && st.refPos <= |refs|
    ensures var s := Seek(cfg, refs, key, st);
            (s.Failed? && s.err == BufferError ==> s.st.refPos == |refs| && Find(s.st.buffer, key).None?)
            && (s.Failed? && s.err == DuplicateKey ==>
                  s.st.refPos >= 1 && Find(s.st.buffer, cfg.refKeyFn(refs[s.st.refPos - 1])).Some?)
    decreases |refs| - st.refPos
  {
    if Find(st.buffer, key).None? && st.refPos < |refs| {
      var refData := refs[st.refPos];
      var refKey := cfg.refKeyFn(refData);
      if Find(st.buffer, refKey).None? {
        var a := Admit(cfg, st.buffer, st.warned, refKey, refData);
        SeekFailures(cfg, refs, key, JoinState(a.0, st.refPos + 1, a.1, st.out));
        assert Seek(cfg, refs, key, st) == Seek(cfg, refs, key, JoinState(a.0, st.refPos + 1, a.1, st.out));
      }
    }
  }

  /** Popping the matched entry removes exactly that entry: the others stay
      in their order, and with distinct keys the key is no longer buffered;
      the yielded result renders the source item with the reference item
      stored under its key. */
  lemma EmitFacts<T, K, M>(cfg: ZipConfig<T, K, M>, data: T, st: JoinState<K, T, M>)
    requires Find(st.buffer, cfg.keyFn(data)).Some?
    ensures var st' := Emit(cfg, data, st);
            var j := Find(st.buffer, cfg.keyFn(data)).value;
            var e := st.buffer[j];
            e.0 == cfg.keyFn(data)
            && st'.out[|st.out|] == Render(cfg.keepKey, cfg.mergeFn, cfg.keyFn(data), data, e.1)
            && |st'.buffer| == |st.buffer| - 1
            && (forall m :: 0 <= m < |st'.buffer| ==> st'.buffer[m] == st.buffer[if m < j then m else m + 1])
            && multiset(st.buffer) == multiset(st'.buffer) + multiset{e}
            && (DistinctKeys(st.buffer) ==> DistinctKeys(st'.buffer) && Find(st'.buffer, cfg.keyFn(data)).None?)
  {
    var key := cfg.keyFn(data);
    var j := Find(st.buffer, key).value;
    var st' := Emit(cfg, data, st);
    assert st'.buffer == st.buffer[..j] + st.buffer[j + 1..];
    RemoveAt(st.buffer, j);
    FindNone(st'.buffer, key);
  }

  /** Popping entry `j` keeps the other entries in their order, removes one
      copy of entry `j`, and with distinct keys leaves no entry under its key. */
  lemma RemoveAt<K, T>(buf: seq<(K, T)>, j: nat)
    requires j < |buf|
    ensures var rest := buf[..j] + buf[j + 1..];
            |rest| == |buf| - 1
            && (forall m :: 0 <= m < |rest| ==> rest[m] == buf[if m < j then m else m + 1])
            && multiset(buf) == multiset(rest) + multiset{buf[j]}
            && (DistinctKeys(buf) ==> DistinctKeys(rest) && forall m :: 0 <= m < |rest| ==> rest[m].0 != buf[j].0)
  {
    var rest := buf[..j] + buf[j + 1..];
    forall m | 0 <= m < |rest| ensures rest[m] == buf[if m < j then m else m + 1] {
    }
    assert buf == buf[..j] + [buf[j]] + buf[j + 1..];
    if DistinctKeys(buf) {
      forall a, b | 0 <= a < b < |rest| ensures rest[a].0 != rest[b].0 {
        assert rest[a] == buf[if a < j then a else a + 1];
        assert rest[b] == buf[if b < j then b else b + 1];
      }
    }
  }

  /** Each source item yields at most one result, in source order. */
  lemma {:induction false} RunCount<T, K, M>(cfg: ZipConfig<T, K, M>, source: seq<T>, refs: seq<T>, i: nat, st: JoinState<K, T, M>)
    requires ValidConfig(cfg) && i <= |source| && st.refPos <= |refs|
    ensures var p := Run(cfg, source, refs, i, st);
            |st.out| <= |p.st.out| && p.st.out[..|st.out|] == st.out
            && (p.err.None? ==> |p.st.out| == |st.out| + |source| - i)
            && (p.err.Some? ==> |p.st.out| < |st.out| + |source| - i)
    decreases |source| - i
  {
    if i < |source| {
      var s := Seek(cfg, refs, cfg.keyFn(source[i]), st);
      if s.Matched? {
        var next := Emit(cfg, source[i], s.st);
        RunCount(cfg, source, refs, i + 1, next);
        var p := Run(cfg, source, refs, i + 1, next);
        assert p.st.out[..|st.out|] == p.st.out[..|next.out|][..|st.out|];
      }
    }
  }

  /** The results of a pass pair each source item, in source order, with a
      reference item carrying the same key; a pass that ends normally yields
      one result per source item, and a failed one yields fewer. */
  lemma {:induction false} JoinOutputsMatch<T, K, M>(cfg: ZipConfig<T, K, M>, source: seq<T>, refs: seq<T>, init: seq<(K, T)>)
    requires ValidConfig(cfg) && FromRefs(cfg, refs, init)
    ensures var p := Join(cfg, source, refs, init);
            Matches(cfg, source, refs, p.st.out)
            && (p.err.None? ==> |p.st.out| == |source|)
            && (p.err.Some? ==> |p.st.out| < |source|)
  {
    var st := JoinState(init, 0, false, []);
    RunMatches(cfg, source, refs, 0, st);
    RunCount(cfg, source, refs, 0, st);
  }

  lemma {:induction false} RunMatches<T, K, M>(cfg: ZipConfig<T, K, M>, source: seq<T>, refs: seq<T>, i: nat, st: JoinState<K, T, M>)
    requires ValidConfig(cfg) && i <= |source| && st.refPos <= |refs|
    requires |st.out| == i && Matches(cfg, source, refs, st.out) && FromRefs(cfg, refs, st.buffer)
    ensures Matches(cfg, source, refs, Run(cfg, source, refs, i, st).st.out)
    decreases |source| - i
  {
    if i < |source| {
      var key := cfg.keyFn(source[i]);
      var s := Seek(cfg, refs, key, st);
      SeekKeeps(cfg, refs, key, st);
      if s.Matched? {
        var next := Emit(cfg, source[i], s.st);
        EmitFacts(cfg, source[i], s.st);
        var e := s.st.buffer[Find(s.st.buffer, key).value];
        assert e.1 in refs && cfg.refKeyFn(e.1) == key;
        assert FromRefs(cfg, refs, next.buffer) by {
          forall x | x in next.buffer ensures x.1 in refs && cfg.refKeyFn(x.1) == x.0 {
            assert x in s.st.buffer;
          }
        }
        assert Matches(cfg, source, refs, next.out) by {
          forall m | 0 <= m < |next.out|
            ensures exists r :: r in refs && cfg.refKeyFn(r) == cfg.keyFn(source[m])
                                && next.out[m] == Render(cfg.keepKey, cfg.mergeFn, cfg.keyFn(source[m]), source[m], r)
          {
            if m < i {
              assert next.out[m] == next.out[..i][m];
            }
          }
        }
        RunMatches(cfg, source, refs, i + 1, next);
      }
    }
  }

  /** Errors of a pass: BufferError means the reference stream was exhausted
      while the key of the next source item was not buffered. */
  lemma {:induction false} RunBufferError<T, K, M>(cfg: ZipConfig<T, K, M>, source: seq<T>, refs: seq<T>, i: nat, st: JoinState<K, T, M>)
    requires ValidConfig(cfg) && i <= |source| && st.refPos <= |refs| && |st.out| == i
    ensures var p := Run(cfg, source, refs, i, st);
            p.err == Some(BufferError) ==>
              |p.st.out| < |source| && p.st.refPos == |refs|
              && Find(p.st.buffer, cfg.keyFn(source[|p.st.out|])).None?
    decreases |source| - i
  {
    if i < |source| {
      var key := cfg.keyFn(source[i]);
      var s := Seek(cfg, refs, key, st);
      SeekFailures(cfg, refs, key, st);
      if s.Matched? {
        RunBufferError(cfg, source, refs, i + 1, Emit(cfg, source[i], s.st));
      }
    }
  }

  /** DuplicateKey means the last reference item pulled has a key that was
      already buffered. */
  lemma {:induction false} RunDuplicateKey<T, K, M>(cfg: ZipConfig<T, K, M>, source: seq<T>, refs: seq<T>, i: nat, st: JoinState<K, T, M>)
    requires ValidConfig(cfg) && i <= |source| && st.refPos <= |refs|
    ensures var p := Run(cfg, source, refs, i, st);
            p.err == Some(DuplicateKey) ==>
              p.st.refPos >= 1 && Find(p.st.buffer, cfg.refKeyFn(refs[p.st.refPos - 1])).Some?
    decreases |source| - i
  {
    if i < |source| {
      var key := cfg.keyFn(source[i]);
      var s := Seek(cfg, refs, key, st);
      SeekFailures(cfg, refs, key, st);
      if s.Matched? {
        RunDuplicateKey(cfg, source, refs, i + 1, Emit(cfg, source[i], s.st));
        assert Run(cfg, source, refs, i, st) == Run(cfg, source, refs, i + 1, Emit(cfg, source[i], s.st));
      } else {
        assert Run(cfg, source, refs, i, st) == Pass(s.st, Some(s.err));
      }
    }
  }

  lemma {:induction false} JoinErrors<T, K, M>(cfg: ZipConfig<T, K, M>, source: seq<T>, refs: seq<T>, init: seq<(K, T)>)
    requires ValidConfig(cfg)
    ensures var p := Join(cfg, source, refs, init);
            (p.err == Some(BufferError) ==>
               |p.st.out| < |source| && p.st.refPos == |refs|
               && Find(p.st.buffer, cfg.keyFn(source[|p.st.out|])).None?)
            && (p.err == Some(DuplicateKey) ==>
               p.st.refPos >= 1 && Find(p.st.buffer, cfg.refKeyFn(refs[p.st.refPos - 1])).Some?)
  {
    RunBufferError(cfg, source, refs, 0, JoinState(init, 0, false, []));
    RunDuplicateKey(cfg, source, refs, 0, JoinState(init, 0, false, []));
  }

  /** The buffer keeps distinct keys and never holds more than `buffer_size + 1`
      entries, so at most that many items reach `janitor`; with an unbounded
      buffer nothing is evicted and the warning is never given. */
  lemma {:induction false} RunKeeps<T, K, M>(cfg: ZipConfig<T, K, M>, source: seq<T>, refs: seq<T>, i: nat, st: JoinState<K, T, M>)
    requires ValidConfig(cfg) && i <= |source| && st.refPos <= |refs|
    ensures var p := Run(cfg, source, refs, i, st);
            (DistinctKeys(st.buffer) ==> DistinctKeys(p.st.buffer))
            && (Bounded(cfg, st.buffer) ==> Bounded(cfg, p.st.buffer))
            && (p.st.warned ==> st.warned || cfg.bufferSize.Some?)
    decreases |source| - i
  {
    if i < |source| {
      var key := cfg.keyFn(source[i]);
      var s := Seek(cfg, refs, key, st);
      SeekKeeps(cfg, refs, key, st);
      if s.Matched? {
        EmitFacts(cfg, source[i], s.st);
        RunKeeps(cfg, source, refs, i + 1, Emit(cfg, source[i], s.st));
      }
    }
  }

  lemma {:induction false} JoinBufferBound<T, K, M>(cfg: ZipConfig<T, K, M>, source: seq<T>, refs: seq<T>, init: seq<(K, T)>)
    requires ValidConfig(cfg) && Bounded(cfg, init)
    ensures var p := Join(cfg, source, refs, init);
            Bounded(cfg, p.st.buffer)
            && (cfg.bufferSize.None? ==> !p.st.warned)
  {
    RunKeeps(cfg, source, refs, 0, JoinState(init, 0, false, []));
  }

  /** Processing only the first `k` source items (a consumer that abandons the
      pass) runs exactly like the full pass up to that point: if the full pass
      gets that far, the longer pass continues from the shorter one's state. */
  lemma {:induction false} RunPrefix<T, K, M>(cfg: ZipConfig<T, K, M>, source: seq<T>, refs: seq<T>, k: nat, i: nat, st: JoinState<K, T, M>)
    requires ValidConfig(cfg) && i <= k <= |source| && st.refPos <= |refs|
    ensures var part := Run(cfg, source[..k], refs, i, st);
            part.st.refPos <= |refs|
            && Run(cfg, source, refs, i, st)
               == if part.err.Some? then part else Run(cfg, source, refs, k, part.st)
    decreases k - i
  {
    if i < k {
      assert source[..k][i] == source[i];
      var s := Seek(cfg, refs, cfg.keyFn(source[i]), st);
      if s.Matched? {
        RunPrefix(cfg, source, refs, k, i + 1, Emit(cfg, source[i], s.st));
      }
    }
  }

  /** What the consumer of an abandoned pass receives is a prefix of what the
      full pass yields, and an abandoned pass that failed failed identically. */
  lemma {:induction false} AbandonedPassIsPrefix<T, K, M>(cfg: ZipConfig<T, K, M>, source: seq<T>, refs: seq<T>, init: seq<(K, T)>, k: nat)
    requires ValidConfig(cfg) && k <= |source|
    ensures var part := Join(cfg, source[..k], refs, init);
            var full := Join(cfg, source, refs, init);
            |part.st.out| <= |full.st.out| && part.st.out == full.st.out[..|part.st.out|]
            && (part.err.Some? ==> part == full)
  {
    var st := JoinState(init, 0, false, []);
    RunPrefix(cfg, source, refs, k, 0, st);
    var part := Run(cfg, source[..k], refs, 0, st);
    if part.err.None? {
      RunCount(cfg, source, refs, k, part.st);
    }
  }

  // ---------------------------------------------------------------------------
  // Worked examples.

  /** What a pass yields when source and reference agree key by key from
      position `i` on: each source item rendered with the reference item at
      the same position. */
  function Aligned<T, K, M>(cfg: ZipConfig<T, K, M>, source: seq<T>, refs: seq<T>, i: nat): (outs: seq<Output<K, T, M>>)
    requires |source| <= |refs|
    ensures |outs| == |source| - i || (i > |source| && outs == [])
    decreases |source| - i
  {
    if i >= |source| then []
    else [Render(cfg.keepKey, cfg.mergeFn, cfg.keyFn(source[i]), source[i], refs[i])] + Aligned(cfg, source, refs, i + 1)
  }

  /** One step in lockstep: with an empty buffer, the next reference item has
      the wanted key, so it is buffered and popped at once. */
  lemma LockstepStep<T, K, M>(cfg: ZipConfig<T, K, M>, source: seq<T>, refs: seq<T>, i: nat, w: bool, out: seq<Output<K, T, M>>)
    requires ValidConfig(cfg) && i < |source| <= |refs| && cfg.keyFn(source[i]) == cfg.refKeyFn(refs[i])
    ensures var k := cfg.keyFn(source[i]);
            var s := Seek(cfg, refs, k, JoinState([], i, w, out));
            s.Matched? && Emit(cfg, source[i], s.st)
              == JoinState([], i + 1, w, out + [Render(cfg.keepKey, cfg.mergeFn, k, source[i], refs[i])])
  {
    var k := cfg.keyFn(source[i]);
    var st := JoinState([], i, w, out);
    var empty: seq<(K, T)> := [];
    var a := Admit(cfg, empty, w, k, refs[i]);
    assert empty + [(k, refs[i])] == [(k, refs[i])];
    assert a == ([(k, refs[i])], w);
    assert Find(a.0, k) == Some(0);
    assert Seek(cfg, refs, k, st) == Matched(JoinState(a.0, i + 1, w, out));
  }

  /** When the source and the reference list the same keys in the same order,
      every source item is matched with the reference item at its position,
      nothing stays buffered and no warning is raised. */
  lemma {:induction false} Lockstep<T, K, M>(cfg: ZipConfig<T, K, M>, source: seq<T>, refs: seq<T>, i: nat, w: bool,
                                             out: seq<Output<K, T, M>>)
    requires ValidConfig(cfg) && i <= |source| <= |refs|
    requires forall j :: i <= j < |source| ==> cfg.keyFn(source[j]) == cfg.refKeyFn(refs[j])
    ensures Run(cfg, source, refs, i, JoinState([], i, w, out))
            == Pass(JoinState([], |source|, w, out + Aligned(cfg, source, refs, i)), None)
    decreases |source| - i
  {
    if i < |source| {
      LockstepStep(cfg, source, refs, i, w, out);
      var item := Render(cfg.keepKey, cfg.mergeFn, cfg.keyFn(source[i]), source[i], refs[i]);
      Lockstep(cfg, source, refs, i + 1, w, out + [item]);
      assert out + [item] + Aligned(cfg, source, refs, i + 1) == out + Aligned(cfg, source, refs, i);
    } else {
      assert out + Aligned(cfg, source, refs, i) == out;
    }
  }

  function First(p: (string, int)): string { p.0 }

  function SumSecond(a: (string, int), b: (string, int)): int { a.1 + b.1 }

  /** The documented example: `[('a', 100), ('b', 200), ('c', 300)]` joined with
      `[('a', 1), ('b', 2), ('c', 3), ('d', 4)]`, keyed, merged by summing. */
  lemma ZipWithIterExample()
    ensures var cfg := ZipConfig(First, First, true, Some(10000), Some(SumSecond));
            Join(cfg, [("a", 100), ("b", 200), ("c", 300)], [("a", 1), ("b", 2), ("c", 3), ("d", 4)], [])
            == Pass(JoinState([], 3, false, [Keyed("a", MergedBy(101)), Keyed("b", MergedBy(202)), Keyed("c", MergedBy(303))]), None)
  {
    var cfg := ZipConfig(First, First, true, Some(10000), Some(SumSecond));
    var source := [("a", 100), ("b", 200), ("c", 300)];
    var refs := [("a", 1), ("b", 2), ("c", 3), ("d", 4)];
    Lockstep(cfg, source, refs, 0, false, []);
    assert Aligned(cfg, source, refs, 3) == [];
    assert Aligned(cfg, source, refs, 2) == [Keyed("c", MergedBy(303))];
    assert Aligned(cfg, source, refs, 1) == [Keyed("b", MergedBy(202)), Keyed("c", MergedBy(303))];
  }

  /** FIFO eviction: with `buffer_size = 1`, pulling `a`, `b`, `c` while looking
      for `c` evicts `a` (the oldest entry) with a warning, so a later source
      item keyed `a` finds no match and the pass fails with BufferError. */
  lemma EvictedKeyIsLost()
    ensures var cfg: ZipConfig<(string, int), string, int> := ZipConfig(First, First, false, Some(1), None);
            var p := Join(cfg, [("c", 0), ("a", 0)], [("a", 1), ("b", 2), ("c", 3)], []);
            p.err == Some(BufferError) && p.st.warned && |p.st.out| == 1
            && Values(p.st.buffer) == [("b", 2)]
  {
    var cfg: ZipConfig<(string, int), string, int> := ZipConfig(First, First, false, Some(1), None);
    var source := [("c", 0), ("a", 0)];
    var refs := [("a", 1), ("b", 2), ("c", 3)];
    var s0 := JoinState([], 0, false, []);
    var s3 := JoinState([("b", ("b", 2)), ("c", ("c", 3))], 3, true, []);
    var s4 := JoinState([("b", ("b", 2))], 3, true, [Bare(Pair(("c", 0), ("c", 3)))]);
    EvictingSeek();
    assert Find(s3.buffer, "c") == Some(1);
    assert Emit(cfg, ("c", 0), s3) == s4;
    assert Run(cfg, source, refs, 0, s0) == Run(cfg, source, refs, 1, s4);
    assert Find(s4.buffer, "a") == None;
    assert Seek(cfg, refs, "a", s4) == Failed(BufferError, s4);
  }

  /** Looking for `c` with `buffer_size = 1` buffers `a` and `b`, then evicts
      `a` (and warns) to make room for `c`. */
  lemma EvictingSeek()
    ensures var cfg: ZipConfig<(string, int), string, int> := ZipConfig(First, First, false, Some(1), None);
            Seek(cfg, [("a", 1), ("b", 2), ("c", 3)], "c", JoinState([], 0, false, []))
            == Matched(JoinState([("b", ("b", 2)), ("c", ("c", 3))], 3, true, []))
  {
    var cfg: ZipConfig<(string, int), string, int> := ZipConfig(First, First, false, Some(1), None);
    var refs := [("a", 1), ("b", 2), ("c", 3)];
    var s1 := JoinState([("a", ("a", 1))], 1, false, []);
    var s2 := JoinState([("a", ("a", 1)), ("b", ("b", 2))], 2, false, []);
    var s3 := JoinState([("b", ("b", 2)), ("c", ("c", 3))], 3, true, []);
    assert "a" != "c" && "b" != "c" && "a" != "b";
    assert Find(s1.buffer, "c") == None && Find(s1.buffer, "b") == None;
    assert Find(s2.buffer, "c") == None;
    assert s2.buffer[1..] + [("c", ("c", 3))] == s3.buffer;
    assert Admit(cfg, s2.buffer, false, "c", ("c", 3)) == (s3.buffer, true);
    assert Find(s3.buffer, "c") == Some(1);
    assert Seek(cfg, refs, "c", s2) == Matched(s3);
    assert Seek(cfg, refs, "c", s1) == Seek(cfg, refs, "c", s2);
  }
}
