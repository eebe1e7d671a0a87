/** `_assign_attr`: the deep search-and-replace of one pipe reference inside
    the values a pipe holds. Nested containers are values here; a pipe is
    known only by its id, and pipes reached inside a container are never
    opened (`inner_dp=False`). */
module Attr {
  import opened Common
  import opened PipeGraph

  /** A value stored in a pipe field, as far as `_assign_attr` can tell it apart. */
  datatype Val =
    | PipeRef(id: Id)                          // an IterDataPipe or MapDataPipe
    | Dict(keys: seq<string>, vals: seq<Val>)  // keys are never rewritten
    | Tuple(items: seq<Val>)
    | List(items: seq<Val>)
    | Set(items: seq<Val>)                     // in iteration order
    | Other                                    // anything else

  /** One call on a value: what it returns (`None` for Python's `None`), the
      value as it stands afterwards (containers are changed in place), and
      whether a `KeyError` escaped. */
  datatype Outcome = Outcome(ret: Option<Val>, after: Val, raised: bool)

  /** A `for ... break` scan over slots `i ..`: the slots as they stand after
      the calls made on them, the first slot whose call returned something
      (with what it returned), and whether a call raised. */
  datatype Scan = Scan(items: seq<Val>, hit: Option<(nat, Val)>, raised: bool)

  /** The tuple loop over slots `i ..`: the slots afterwards, the entries of
      `temp_list`, whether `flag` was set, and whether a call raised. */
  datatype Rebuild = Rebuild(items: seq<Val>, built: seq<Val>, flag: bool, raised: bool)

  /** The pipe ids a value mentions directly (pipes are not opened). */
  function Refs(v: Val): set<Id>
    decreases v, 1
  {
    match v
    case PipeRef(x) => {x}
    case Dict(_, vs) => RefsFrom(vs, 0)
    case Tuple(vs) => RefsFrom(vs, 0)
    case List(vs) => RefsFrom(vs, 0)
    case Set(vs) => RefsFrom(vs, 0)
    case Other => {}
  }

  function RefsFrom(vs: seq<Val>, i: nat): set<Id>
    requires i <= |vs|
    decreases vs, 0, |vs| - i
  {
    if i == |vs| then {} else Refs(vs[i]) + RefsFrom(vs, i + 1)
  }

  /** `_assign_attr(v, oldDp, newDp)` with `inner_dp=False`, the mode of every
      call below a pipe's own fields. */
  function Rewrite(v: Val, oldDp: Id, newDp: Id): (o: Outcome)
    ensures o.ret == Some(PipeRef(newDp)) <==> v == PipeRef(oldDp)
    ensures v.PipeRef? && v.id != oldDp ==> o == Outcome(None, v, false)
    ensures o.ret.Some? ==> !o.raised && (v.PipeRef? || v.Tuple?)
    decreases v, 1
  {
    match v
    case PipeRef(x) =>
      if x == oldDp then Outcome(Some(PipeRef(newDp)), v, false) else Outcome(None, v, false)
    case Dict(ks, vs) =>
      var s := ScanFrom(vs, oldDp, newDp, 0);
      Outcome(None, Dict(ks, Overwrite(s)), s.raised)
    case List(vs) =>
      var s := ScanFrom(vs, oldDp, newDp, 0);
      Outcome(None, List(Overwrite(s)), s.raised)
    case Tuple(vs) =>
      var t := RebuildFrom(vs, oldDp, newDp, 0);
      if t.raised then Outcome(None, Tuple(t.items), true)
      else if t.flag then Outcome(Some(Tuple(t.built)), Tuple(t.items), false)
      else Outcome(None, Tuple(t.items), false)
    case Set(vs) =>
      var s := ScanFrom(vs, oldDp, newDp, 0);
      if s.raised || s.hit.None? then Outcome(None, Set(s.items), s.raised)
      // `obj.remove(old_dp)` raises a KeyError when `oldDp` is not itself a member
      else if PipeRef(oldDp) !in s.items then Outcome(None, Set(s.items), true)
      else Outcome(None, Set(Swap(s.items, oldDp, newDp)), false)
    case Other => Outcome(None, v, false)
  }

  /** The loop of the dict and list branches (and of the pipe-field loop):
      each slot is visited in order, and the scan stops at the first call
      that returns something or raises. */
  function ScanFrom(vs: seq<Val>, oldDp: Id, newDp: Id, i: nat): (s: Scan)
    requires i <= |vs|
    ensures |s.items| == |vs| - i
    ensures s.hit.Some? ==> i <= s.hit.value.0 < |vs| && !s.raised
    decreases vs, 0, |vs| - i
  {
    if i == |vs| then Scan([], None, false)
    else
      var o := Rewrite(vs[i], oldDp, newDp);
      if o.raised then Scan([o.after] + vs[i + 1..], None, true)
      else if o.ret.Some? then Scan([o.after] + vs[i + 1..], Some((i, o.ret.value)), false)
      else
        var rest := ScanFrom(vs, oldDp, newDp, i + 1);
        Scan([o.after] + rest.items, rest.hit, rest.raised)
  }

  /** The slot at which a scan from `i` stops: the first whose call returns
      something or raises, or `|vs|` when every call returns `None`. */
  ghost function ScanStop(vs: seq<Val>, oldDp: Id, newDp: Id, i: nat): (j: nat)
    requires i <= |vs|
    ensures i <= j <= |vs|
    ensures forall k :: i <= k < j ==> Rewrite(vs[k], oldDp, newDp).ret.None? && !Rewrite(vs[k], oldDp, newDp).raised
    ensures j < |vs| ==> Rewrite(vs[j], oldDp, newDp).raised || Rewrite(vs[j], oldDp, newDp).ret.Some?
    decreases |vs| - i
  {
    if i == |vs| then i
    else
      var o := Rewrite(vs[i], oldDp, newDp);
      if o.raised || o.ret.Some? then i else ScanStop(vs, oldDp, newDp, i + 1)
  }

  /** The slots after a scan from 0, with the hit slot overwritten by what its call returned. */
  function Overwrite(s: Scan): (r: seq<Val>)
    requires s.hit.Some? ==> s.hit.value.0 < |s.items|
    ensures |r| == |s.items|
  {
    if s.hit.Some? then s.items[s.hit.value.0 := s.hit.value.1] else s.items
  }

  /** The tuple loop: every slot is visited; a slot whose call returned
      something contributes `newDp` itself to `temp_list`, whatever was returned. */
  function RebuildFrom(vs: seq<Val>, oldDp: Id, newDp: Id, i: nat): (t: Rebuild)
    requires i <= |vs|
    ensures |t.items| == |vs| - i
    ensures !t.raised ==> |t.built| == |vs| - i
    ensures t.raised ==> t.built == [] && !t.flag
    decreases vs, 0, |vs| - i
  {
    if i == |vs| then Rebuild([], [], false, false)
    else
      var o := Rewrite(vs[i], oldDp, newDp);
      if o.raised then Rebuild([o.after] + vs[i + 1..], [], false, true)
      else
        var rest := RebuildFrom(vs, oldDp, newDp, i + 1);
        var slot := if o.ret.Some? then PipeRef(newDp) else o.after;
        if rest.raised then Rebuild([o.after] + rest.items, [], false, true)
        else Rebuild([o.after] + rest.items, [slot] + rest.built, o.ret.Some? || rest.flag, false)
  }

  /** `s` without any occurrence of `x`. */
  function Without(s: seq<Val>, x: Val): (r: seq<Val>)
    ensures forall y :: y in r <==> y in s && y != x
    ensures |r| <= |s|
  {
    if s == [] then []
    else if s[0] == x then Without(s[1..], x)
    else [s[0]] + Without(s[1..], x)
  }

  /** `obj.remove(old_dp); obj.add(new_dp)` on a set. */
  function Swap(s: seq<Val>, oldDp: Id, newDp: Id): (r: seq<Val>)
    ensures forall y :: y in r <==> (y in s && y != PipeRef(oldDp)) || y == PipeRef(newDp)
  {
    var rest := Without(s, PipeRef(oldDp));
    if PipeRef(newDp) in rest then rest else rest + [PipeRef(newDp)]
  }

  /** Every member of `vs` is `oldDp` itself or does not mention it. */
  ghost predicate OnlyDirect(vs: seq<Val>, oldDp: Id) {
    forall k :: 0 <= k < |vs| ==> vs[k] == PipeRef(oldDp) || oldDp !in Refs(vs[k])
  }

  /** `vs` with each direct `oldDp` replaced by `newDp`. */
  function SubstDirect(vs: seq<Val>, oldDp: Id, newDp: Id): (r: seq<Val>)
    ensures |r| == |vs|
    ensures forall k :: 0 <= k < |vs| ==> r[k] == (if vs[k] == PipeRef(oldDp) then PipeRef(newDp) else vs[k])
  {
    if vs == [] then []
    else [if vs[0] == PipeRef(oldDp) then PipeRef(newDp) else vs[0]] + SubstDirect(vs[1..], oldDp, newDp)
  }

  // ---------------------------------------------------------------------
  // Properties

  lemma {:induction false} RefsFromHas(vs: seq<Val>, i: nat, k: nat)
    requires i <= k < |vs|
    ensures Refs(vs[k]) <= RefsFrom(vs, i)
    decreases k - i
  {
    if i < k {
      RefsFromHas(vs, i + 1, k);
    }
  }

  /** A value that does not mention `oldDp` comes back unchanged, with `None`. */
  lemma {:induction false} Untouched(v: Val, oldDp: Id, newDp: Id)
    requires oldDp !in Refs(v)
    ensures Rewrite(v, oldDp, newDp) == Outcome(None, v, false)
    decreases v, 1
  {
    match v
    case PipeRef(x) =>
    case Dict(ks, vs) => UntouchedScan(vs, oldDp, newDp, 0);
    case List(vs) => UntouchedScan(vs, oldDp, newDp, 0);
    case Tuple(vs) => UntouchedRebuild(vs, oldDp, newDp, 0);
    case Set(vs) => UntouchedScan(vs, oldDp, newDp, 0);
    case Other =>
  }

  lemma {:induction false} UntouchedScan(vs: seq<Val>, oldDp: Id, newDp: Id, i: nat)
    requires i <= |vs| && oldDp !in RefsFrom(vs, i)
    ensures ScanFrom(vs, oldDp, newDp, i) == Scan(vs[i..], None, false)
    decreases vs, 0, |vs| - i
  {
    if i < |vs| {
      Untouched(vs[i], oldDp, newDp);
      UntouchedScan(vs, oldDp, newDp, i + 1);
      assert vs[i..] == [vs[i]] + vs[i + 1..];
    }
  }

  lemma {:induction false} UntouchedRebuild(vs: seq<Val>, oldDp: Id, newDp: Id, i: nat)
    requires i <= |vs| && oldDp !in RefsFrom(vs, i)
    ensures RebuildFrom(vs, oldDp, newDp, i) == Rebuild(vs[i..], vs[i..], false, false)
    decreases vs, 0, |vs| - i
  {
    if i < |vs| {
      Untouched(vs[i], oldDp, newDp);
      UntouchedRebuild(vs, oldDp, newDp, i + 1);
      assert vs[i..] == [vs[i]] + vs[i + 1..];
    }
  }

  /** The only pipe a rewrite can introduce is `newDp`: both what a call
      returns and what it leaves behind mention nothing else that was not
      there before. */
  lemma {:induction false} RefsKept(v: Val, oldDp: Id, newDp: Id)
    ensures var o := Rewrite(v, oldDp, newDp);
            Refs(o.after) <= Refs(v) + {newDp}
            && (o.ret.Some? ==> Refs(o.ret.value) <= Refs(v) + {newDp})
    decreases v, 1
  {
    var o := Rewrite(v, oldDp, newDp);
    match v
    case PipeRef(x) =>
    case Dict(ks, vs) =>
      ScanKept(vs, oldDp, newDp, 0);
      OverwriteKept(ScanFrom(vs, oldDp, newDp, 0), RefsFrom(vs, 0) + {newDp});
    case List(vs) =>
      ScanKept(vs, oldDp, newDp, 0);
      OverwriteKept(ScanFrom(vs, oldDp, newDp, 0), RefsFrom(vs, 0) + {newDp});
    case Tuple(vs) =>
      RebuildKept(vs, oldDp, newDp, 0);
    case Set(vs) =>
      var s := ScanFrom(vs, oldDp, newDp, 0);
      ScanKept(vs, oldDp, newDp, 0);
      if !s.raised && s.hit.Some? && PipeRef(oldDp) in s.items {
        var r := Swap(s.items, oldDp, newDp);
        forall k | 0 <= k < |r| ensures Refs(r[k]) <= RefsFrom(vs, 0) + {newDp} {
          assert r[k] in r;
          if r[k] != PipeRef(newDp) {
            var j :| 0 <= j < |s.items| && s.items[j] == r[k];
            RefsFromHas(s.items, 0, j);
          }
        }
        SeqRefs(r, 0, RefsFrom(vs, 0) + {newDp});
      }
    case Other =>
  }

  /** A sequence mentions only what its members mention. */
  lemma {:induction false} SeqRefs(vs: seq<Val>, i: nat, bound: set<Id>)
    requires i <= |vs| && forall k :: i <= k < |vs| ==> Refs(vs[k]) <= bound
    ensures RefsFrom(vs, i) <= bound
    decreases |vs| - i
  {
    if i < |vs| {
      SeqRefs(vs, i + 1, bound);
    }
  }

  lemma {:induction false} RefsFromConcat(a: seq<Val>, b: seq<Val>)
    ensures RefsFrom(a + b, 0) == RefsFrom(a, 0) + RefsFrom(b, 0)
    decreases |a|
  {
    if a == [] {
      assert a + b == b;
    } else {
      assert RefsFrom(a + b, 0) == Refs(a[0]) + RefsFrom(a + b, 1);
      ShiftRefs(a + b, 1);
      ShiftRefs(a, 1);
      assert (a + b)[1..] == a[1..] + b;
      RefsFromConcat(a[1..], b);
    }
  }

  /** Counting from `i` is counting from 0 on the suffix. */
  lemma {:induction false} ShiftRefs(vs: seq<Val>, i: nat)
    requires i <= |vs|
    ensures RefsFrom(vs, i) == RefsFrom(vs[i..], 0)
    decreases |vs| - i
  {
    if i < |vs| {
      ShiftRefs(vs, i + 1);
      var t := vs[i..];
      assert t[0] == vs[i];
      assert t[1..] == vs[i + 1..];
      ShiftRefs(t, 1);
    }
  }

  lemma {:induction false} ScanKept(vs: seq<Val>, oldDp: Id, newDp: Id, i: nat)
    requires i <= |vs|
    ensures var s := ScanFrom(vs, oldDp, newDp, i);
            RefsFrom(s.items, 0) <= RefsFrom(vs, i) + {newDp}
            && (s.hit.Some? ==> Refs(s.hit.value.1) <= RefsFrom(vs, i) + {newDp})
    decreases vs, 0, |vs| - i
  {
    if i < |vs| {
      var o := Rewrite(vs[i], oldDp, newDp);
      RefsKept(vs[i], oldDp, newDp);
      ShiftRefs(vs, i + 1);
      if o.raised || o.ret.Some? {
        RefsFromConcat([o.after], vs[i + 1..]);
      } else {
        var rest := ScanFrom(vs, oldDp, newDp, i + 1);
        ScanKept(vs, oldDp, newDp, i + 1);
        RefsFromConcat([o.after], rest.items);
      }
    }
  }

  lemma {:induction false} RebuildKept(vs: seq<Val>, oldDp: Id, newDp: Id, i: nat)
    requires i <= |vs|
    ensures var t := RebuildFrom(vs, oldDp, newDp, i);
            RefsFrom(t.items, 0) <= RefsFrom(vs, i) + {newDp}
            && RefsFrom(t.built, 0) <= RefsFrom(vs, i) + {newDp}
    decreases vs, 0, |vs| - i
  {
    if i < |vs| {
      var o := Rewrite(vs[i], oldDp, newDp);
      RefsKept(vs[i], oldDp, newDp);
      ShiftRefs(vs, i + 1);
      if o.raised {
        RefsFromConcat([o.after], vs[i + 1..]);
      } else {
        var rest := RebuildFrom(vs, oldDp, newDp, i + 1);
        var slot := if o.ret.Some? then PipeRef(newDp) else o.after;
        RebuildKept(vs, oldDp, newDp, i + 1);
        RefsFromConcat([o.after], rest.items);
        RefsFromConcat([slot], rest.built);
      }
    }
  }

  lemma OverwriteKept(s: Scan, bound: set<Id>)
    requires s.hit.Some? ==> s.hit.value.0 < |s.items| && Refs(s.hit.value.1) <= bound
    requires RefsFrom(s.items, 0) <= bound
    ensures RefsFrom(Overwrite(s), 0) <= bound
  {
    var r := Overwrite(s);
    forall k | 0 <= k < |r| ensures Refs(r[k]) <= bound {
      if !(s.hit.Some? && k == s.hit.value.0) {
        RefsFromHas(s.items, 0, k);
      }
    }
    SeqRefs(r, 0, bound);
  }

  /** The `for ... break` rule in general: the scan stops at the first slot
      whose call returns something or raises; it raises exactly when that
      call raised, and otherwise its hit is that slot with what the call
      returned; with no such slot there is no hit and nothing raised. */
  lemma {:induction false} ScanStopsAt(vs: seq<Val>, oldDp: Id, newDp: Id, i: nat)
    requires i <= |vs|
    ensures var j := ScanStop(vs, oldDp, newDp, i);
            var s := ScanFrom(vs, oldDp, newDp, i);
            s.raised == (j < |vs| && Rewrite(vs[j], oldDp, newDp).raised)
            && s.hit == (if j < |vs| && !Rewrite(vs[j], oldDp, newDp).raised
                         then Some((j, Rewrite(vs[j], oldDp, newDp).ret.value)) else None)
    decreases |vs| - i
  {
    if i < |vs| {
      var o := Rewrite(vs[i], oldDp, newDp);
      if !o.raised && o.ret.None? {
        ScanStopsAt(vs, oldDp, newDp, i + 1);
      }
    }
  }

  /** What a scan leaves in the slots it visited: every slot up to the one
      it stopped at stands as its call left it. */
  lemma {:induction false} ScanVisited(vs: seq<Val>, oldDp: Id, newDp: Id, i: nat)
    requires i <= |vs|
    ensures forall k :: 0 <= k < |vs| - i && i + k <= ScanStop(vs, oldDp, newDp, i) ==>
              ScanFrom(vs, oldDp, newDp, i).items[k] == Rewrite(vs[i + k], oldDp, newDp).after
    decreases |vs| - i
  {
    if i < |vs| {
      var o := Rewrite(vs[i], oldDp, newDp);
      var s := ScanFrom(vs, oldDp, newDp, i);
      if !o.raised && o.ret.None? {
        var rest := ScanFrom(vs, oldDp, newDp, i + 1);
        ScanVisited(vs, oldDp, newDp, i + 1);
        assert s.items == [o.after] + rest.items;
        forall k | 1 <= k < |vs| - i && i + k <= ScanStop(vs, oldDp, newDp, i)
          ensures s.items[k] == Rewrite(vs[i + k], oldDp, newDp).after
        {
          var m := k - 1;
          assert s.items[k] == rest.items[m];
          assert i + 1 + m == i + k;
        }
      }
    }
  }

  /** A scan leaves the slots after the one it stopped at untouched. */
  lemma {:induction false} ScanUnvisited(vs: seq<Val>, oldDp: Id, newDp: Id, i: nat)
    requires i <= |vs|
    ensures ScanStop(vs, oldDp, newDp, i) < |vs| ==>
              ScanFrom(vs, oldDp, newDp, i).items[ScanStop(vs, oldDp, newDp, i) - i + 1..]
              == vs[ScanStop(vs, oldDp, newDp, i) + 1..]
    decreases |vs| - i
  {
    if i < |vs| {
      var o := Rewrite(vs[i], oldDp, newDp);
      var s := ScanFrom(vs, oldDp, newDp, i);
      if !o.raised && o.ret.None? {
        var rest := ScanFrom(vs, oldDp, newDp, i + 1);
        ScanUnvisited(vs, oldDp, newDp, i + 1);
        assert s.items == [o.after] + rest.items;
        var j := ScanStop(vs, oldDp, newDp, i);
        assert j == ScanStop(vs, oldDp, newDp, i + 1);
        if j < |vs| {
          assert s.items[j - i + 1..] == rest.items[j - (i + 1) + 1..];
        }
      } else {
        assert ScanStop(vs, oldDp, newDp, i) == i;
        assert s.items == [o.after] + vs[i + 1..];
        assert s.items[1..] == vs[i + 1..];
      }
    }
  }

  /** The tuple loop raises exactly when some call on a slot raises. */
  lemma {:induction false} RebuildRaises(vs: seq<Val>, oldDp: Id, newDp: Id, i: nat)
    requires i <= |vs|
    ensures RebuildFrom(vs, oldDp, newDp, i).raised
            <==> exists k :: i <= k < |vs| && Rewrite(vs[k], oldDp, newDp).raised
    decreases |vs| - i
  {
    if i < |vs| {
      RebuildRaises(vs, oldDp, newDp, i + 1);
    }
  }

  /** When nothing raises, the tuple loop leaves every slot as its call left it. */
  lemma {:induction false} RebuildItems(vs: seq<Val>, oldDp: Id, newDp: Id, i: nat)
    requires i <= |vs|
    ensures !RebuildFrom(vs, oldDp, newDp, i).raised ==>
              forall k :: 0 <= k < |vs| - i ==>
                RebuildFrom(vs, oldDp, newDp, i).items[k] == Rewrite(vs[i + k], oldDp, newDp).after
    decreases |vs| - i
  {
    if i < |vs| {
      var t := RebuildFrom(vs, oldDp, newDp, i);
      var o := Rewrite(vs[i], oldDp, newDp);
      var rest := RebuildFrom(vs, oldDp, newDp, i + 1);
      if !o.raised && !rest.raised {
        RebuildItems(vs, oldDp, newDp, i + 1);
        assert t.items == [o.after] + rest.items;
        forall k | 1 <= k < |vs| - i
          ensures t.items[k] == Rewrite(vs[i + k], oldDp, newDp).after
        {
          var m := k - 1;
          assert t.items[k] == rest.items[m];
          assert i + 1 + m == i + k;
        }
      }
    }
  }

  /** The tuple rule in general: when nothing raises, `temp_list` holds
      `newDp` exactly where a call returned something, and elsewhere the
      slot as its call left it. */
  lemma {:induction false} RebuildEachSlot(vs: seq<Val>, oldDp: Id, newDp: Id, i: nat)
    requires i <= |vs|
    ensures !RebuildFrom(vs, oldDp, newDp, i).raised ==>
              forall k :: 0 <= k < |vs| - i ==>
                RebuildFrom(vs, oldDp, newDp, i).built[k]
                == (if Rewrite(vs[i + k], oldDp, newDp).ret.Some? then PipeRef(newDp)
                    else Rewrite(vs[i + k], oldDp, newDp).after)
    decreases |vs| - i
  {
    if i < |vs| {
      var t := RebuildFrom(vs, oldDp, newDp, i);
      var o := Rewrite(vs[i], oldDp, newDp);
      var rest := RebuildFrom(vs, oldDp, newDp, i + 1);
      if !o.raised && !rest.raised {
        RebuildEachSlot(vs, oldDp, newDp, i + 1);
        var slot := if o.ret.Some? then PipeRef(newDp) else o.after;
        assert t.built == [slot] + rest.built;
        forall k | 1 <= k < |vs| - i
          ensures t.built[k] == (if Rewrite(vs[i + k], oldDp, newDp).ret.Some? then PipeRef(newDp)
                                 else Rewrite(vs[i + k], oldDp, newDp).after)
        {
          var m := k - 1;
          assert t.built[k] == rest.built[m];
          assert i + 1 + m == i + k;
        }
      }
    }
  }

  /** When nothing raises, the tuple loop sets `flag` exactly when some call
      on a slot returned something. */
  lemma {:induction false} RebuildFlag(vs: seq<Val>, oldDp: Id, newDp: Id, i: nat)
    requires i <= |vs|
    ensures var t := RebuildFrom(vs, oldDp, newDp, i);
            !t.raised ==> (t.flag <==> exists k :: i <= k < |vs| && Rewrite(vs[k], oldDp, newDp).ret.Some?)
    decreases |vs| - i
  {
    if i < |vs| {
      RebuildFlag(vs, oldDp, newDp, i + 1);
    }
  }

  /** In a dict, a list or a pipe's fields, when slot `j` is `oldDp` itself and
      no slot before it mentions `oldDp`, the scan stops at `j` and returns
      `newDp` for it; no slot is changed. */
  lemma {:induction false} FirstDirect(vs: seq<Val>, oldDp: Id, newDp: Id, i: nat, j: nat)
    requires i <= j < |vs| && vs[j] == PipeRef(oldDp)
    requires forall k :: i <= k < j ==> oldDp !in Refs(vs[k])
    ensures ScanFrom(vs, oldDp, newDp, i) == Scan(vs[i..], Some((j, PipeRef(newDp))), false)
    decreases j - i
  {
    if i < j {
      Untouched(vs[i], oldDp, newDp);
      FirstDirect(vs, oldDp, newDp, i + 1, j);
    }
    assert vs[i..] == [vs[i]] + vs[i + 1..];
  }

  /** The list branch overwrites the first slot holding `oldDp` and leaves
      every other slot as it was. */
  lemma ListFirstSlot(vs: seq<Val>, oldDp: Id, newDp: Id, j: nat)
    requires j < |vs| && vs[j] == PipeRef(oldDp)
    requires forall k :: 0 <= k < j ==> oldDp !in Refs(vs[k])
    ensures Rewrite(List(vs), oldDp, newDp) == Outcome(None, List(vs[j := PipeRef(newDp)]), false)
  {
    FirstDirect(vs, oldDp, newDp, 0, j);
  }

  /** The dict branch likewise overwrites only the first value holding `oldDp`. */
  lemma DictFirstSlot(ks: seq<string>, vs: seq<Val>, oldDp: Id, newDp: Id, j: nat)
    requires j < |vs| && vs[j] == PipeRef(oldDp)
    requires forall k :: 0 <= k < j ==> oldDp !in Refs(vs[k])
    ensures Rewrite(Dict(ks, vs), oldDp, newDp) == Outcome(None, Dict(ks, vs[j := PipeRef(newDp)]), false)
  {
    FirstDirect(vs, oldDp, newDp, 0, j);
  }

  /** A set holding `oldDp` as a member, and otherwise not mentioning it, has
      `oldDp` swapped for `newDp`, and the call returns `None`. */
  lemma SetSwap(vs: seq<Val>, oldDp: Id, newDp: Id)
    requires PipeRef(oldDp) in vs && OnlyDirect(vs, oldDp)
    ensures Rewrite(Set(vs), oldDp, newDp) == Outcome(None, Set(Swap(vs, oldDp, newDp)), false)
  {
    var j := FirstIndex(vs, PipeRef(oldDp));
    forall k | 0 <= k < j ensures oldDp !in Refs(vs[k]) {
      assert vs[k] != PipeRef(oldDp);
    }
    FirstDirect(vs, oldDp, newDp, 0, j);
    assert vs[0..] == vs;
  }

  function FirstIndex(vs: seq<Val>, x: Val): (j: nat)
    requires x in vs
    ensures j < |vs| && vs[j] == x && forall k :: 0 <= k < j ==> vs[k] != x
  {
    if vs[0] == x then 0 else 1 + FirstIndex(vs[1..], x)
  }

  /** A tuple whose members are `oldDp` or do not mention it comes back as a
      newDp tuple with each `oldDp` replaced by `newDp`, itself unchanged. */
  lemma TupleDirect(vs: seq<Val>, oldDp: Id, newDp: Id)
    requires PipeRef(oldDp) in vs && OnlyDirect(vs, oldDp)
    ensures Rewrite(Tuple(vs), oldDp, newDp) == Outcome(Some(Tuple(SubstDirect(vs, oldDp, newDp))), Tuple(vs), false)
  {
    TupleSubst(vs, oldDp, newDp, 0);
    assert vs[0..] == vs;
    TupleFlagged(vs, oldDp, newDp);
    TupleReturns(vs, oldDp, newDp);
  }

  /** A tuple whose loop sets `flag` without raising returns the rebuilt tuple. */
  lemma TupleReturns(vs: seq<Val>, oldDp: Id, newDp: Id)
    requires !RebuildFrom(vs, oldDp, newDp, 0).raised && RebuildFrom(vs, oldDp, newDp, 0).flag
    ensures Rewrite(Tuple(vs), oldDp, newDp)
            == Outcome(Some(Tuple(RebuildFrom(vs, oldDp, newDp, 0).built)), Tuple(RebuildFrom(vs, oldDp, newDp, 0).items), false)
  {
  }

  lemma TupleFlagged(vs: seq<Val>, oldDp: Id, newDp: Id)
    requires PipeRef(oldDp) in vs && OnlyDirect(vs, oldDp)
    ensures RebuildFrom(vs, oldDp, newDp, 0).flag
  {
    var k :| 0 <= k < |vs| && vs[k] == PipeRef(oldDp);
    TupleFlag(vs, oldDp, newDp, 0, k);
  }

  lemma {:induction false} TupleSubst(vs: seq<Val>, oldDp: Id, newDp: Id, i: nat)
    requires i <= |vs| && OnlyDirect(vs, oldDp)
    ensures var t := RebuildFrom(vs, oldDp, newDp, i);
            !t.raised && t.items == vs[i..] && t.built == SubstDirect(vs[i..], oldDp, newDp)
    decreases |vs| - i
  {
    if i < |vs| {
      if vs[i] != PipeRef(oldDp) {
        Untouched(vs[i], oldDp, newDp);
      }
      TupleSubst(vs, oldDp, newDp, i + 1);
      assert vs[i..] == [vs[i]] + vs[i + 1..];
      assert vs[i..][1..] == vs[i + 1..];
    }
  }

  lemma {:induction false} TupleFlag(vs: seq<Val>, oldDp: Id, newDp: Id, i: nat, k: nat)
    requires i <= k < |vs| && vs[k] == PipeRef(oldDp) && OnlyDirect(vs, oldDp)
    ensures RebuildFrom(vs, oldDp, newDp, i).flag
    decreases k - i
  {
    if i < k {
      if vs[i] != PipeRef(oldDp) {
        Untouched(vs[i], oldDp, newDp);
      }
      TupleSubst(vs, oldDp, newDp, i + 1);
      TupleFlag(vs, oldDp, newDp, i + 1, k);
    } else {
      TupleSubst(vs, oldDp, newDp, i + 1);
    }
  }

  /** Quirk of the tuple branch: an inner tuple that holds `oldDp` is
      replaced by `newDp` itself, so its other members are lost. */
  lemma NestedTupleCollapses()
    ensures Rewrite(Tuple([Tuple([PipeRef(1), Other])]), 1, 2).ret == Some(Tuple([PipeRef(2)]))
  {
    var inner := [PipeRef(1), Other];
    TupleDirect(inner, 1, 2);
    var outer := [Tuple(inner)];
    assert Rewrite(outer[0], 1, 2).ret.Some?;
    assert RebuildFrom(outer, 1, 2, 1) == Rebuild([], [], false, false);
    var t := RebuildFrom(outer, 1, 2, 0);
    assert t.built == [PipeRef(2)] + [] && t.flag && !t.raised;
    assert t.built == [PipeRef(2)];
    assert Rewrite(Tuple(outer), 1, 2).ret == Some(Tuple(t.built));
  }

  /** Quirk of the in-place branches: a nested list changed in place yields
      `None`, so the outer loop goes on and rewrites a second slot too. */
  lemma NestedListTwoSlots()
    ensures Rewrite(List([List([PipeRef(1)]), PipeRef(1)]), 1, 2).after == List([List([PipeRef(2)]), PipeRef(2)])
  {
    var inner := [PipeRef(1)];
    ListFirstSlot(inner, 1, 2, 0);
    var outer := [List(inner), PipeRef(1)];
    assert inner[0 := PipeRef(2)] == [PipeRef(2)];
    assert Rewrite(outer[0], 1, 2) == Outcome(None, List([PipeRef(2)]), false);
    FirstDirect(outer, 1, 2, 1, 1);
    assert outer[1..] == [PipeRef(1)];
    var s := ScanFrom(outer, 1, 2, 0);
    assert s == Scan([List([PipeRef(2)]), PipeRef(1)], Some((1, PipeRef(2))), false);
  }

  /** A set that holds `oldDp` only inside a tuple raises a KeyError. */
  lemma SetMissesNested()
    ensures Rewrite(Set([Tuple([PipeRef(1)])]), 1, 2).raised
  {
    var inner := [PipeRef(1)];
    TupleDirect(inner, 1, 2);
  }

  // ---------------------------------------------------------------------
  // The same search, as a recursive method with loops

  /** `_assign_attr(v, oldDp, newDp)` with `inner_dp=False`. */
  method RewriteValue(v: Val, oldDp: Id, newDp: Id) returns (o: Outcome)
    ensures o == Rewrite(v, oldDp, newDp)
    decreases v, 1
  {
    match v
    case PipeRef(x) =>
      o := if x == oldDp then Outcome(Some(PipeRef(newDp)), v, false) else Outcome(None, v, false);
    case Dict(ks, vs) =>
      var s := ScanSlots(vs, oldDp, newDp);
      o := Outcome(None, Dict(ks, Overwrite(s)), s.raised);
    case List(vs) =>
      var s := ScanSlots(vs, oldDp, newDp);
      o := Outcome(None, List(Overwrite(s)), s.raised);
    case Tuple(vs) =>
      var t := RebuildSlots(vs, oldDp, newDp);
      if t.raised {
        o := Outcome(None, Tuple(t.items), true);
      } else if t.flag {
        o := Outcome(Some(Tuple(t.built)), Tuple(t.items), false);
      } else {
        o := Outcome(None, Tuple(t.items), false);
      }
    case Set(vs) =>
      var s := ScanSlots(vs, oldDp, newDp);
      if s.raised || s.hit.None? {
        o := Outcome(None, Set(s.items), s.raised);
      } else if PipeRef(oldDp) !in s.items {
        o := Outcome(None, Set(s.items), true);
      } else {
        o := Outcome(None, Set(Swap(s.items, oldDp, newDp)), false);
      }
    case Other =>
      o := Outcome(None, v, false);
  }

  /** The `for ... break` loop over `vs`. */
  method ScanSlots(vs: seq<Val>, oldDp: Id, newDp: Id) returns (s: Scan)
    ensures s == ScanFrom(vs, oldDp, newDp, 0)
    decreases vs, 0
  {
    var done: seq<Val> := [];
    var i := 0;
    while i < |vs|
      invariant i <= |vs| && |done| == i
      invariant ScanFrom(vs, oldDp, newDp, 0) == Lift(done, ScanFrom(vs, oldDp, newDp, i))
    {
      var o := RewriteValue(vs[i], oldDp, newDp);
      ScanUnfold(vs, oldDp, newDp, i, done);
      if o.raised {
        return Scan(done + [o.after] + vs[i + 1..], None, true);
      }
      if o.ret.Some? {
        return Scan(done + [o.after] + vs[i + 1..], Some((i, o.ret.value)), false);
      }
      done := done + [o.after];
      i := i + 1;
    }
    assert done + [] == done;
    s := Scan(done, None, false);
  }

  /** One step of the scan from `i`, with the slots before `i` in front. */
  lemma ScanUnfold(vs: seq<Val>, oldDp: Id, newDp: Id, i: nat, done: seq<Val>)
    requires i < |vs|
    ensures var o := Rewrite(vs[i], oldDp, newDp);
            var s := Lift(done, ScanFrom(vs, oldDp, newDp, i));
            (o.raised ==> s == Scan(done + [o.after] + vs[i + 1..], None, true))
            && (!o.raised && o.ret.Some? ==> s == Scan(done + [o.after] + vs[i + 1..], Some((i, o.ret.value)), false))
            && (!o.raised && o.ret.None? ==> s == Lift(done + [o.after], ScanFrom(vs, oldDp, newDp, i + 1)))
  {
    var o := Rewrite(vs[i], oldDp, newDp);
    assert done + ([o.after] + vs[i + 1..]) == done + [o.after] + vs[i + 1..];
    var rest := ScanFrom(vs, oldDp, newDp, i + 1);
    assert done + ([o.after] + rest.items) == done + [o.after] + rest.items;
  }

  /** A scan from `i`, with the slots before `i` put back in front. */
  function Lift(done: seq<Val>, s: Scan): Scan {
    Scan(done + s.items, s.hit, s.raised)
  }

  /** The tuple loop over `vs`. */
  method RebuildSlots(vs: seq<Val>, oldDp: Id, newDp: Id) returns (t: Rebuild)
    ensures t == RebuildFrom(vs, oldDp, newDp, 0)
    decreases vs, 0
  {
    var done: seq<Val> := [];
    var tempList: seq<Val> := [];
    var flag := false;
    var i := 0;
    while i < |vs|
      invariant i <= |vs| && |done| == i
      invariant RebuildFrom(vs, oldDp, newDp, 0) == Join(done, tempList, flag, RebuildFrom(vs, oldDp, newDp, i))
    {
      var o := RewriteValue(vs[i], oldDp, newDp);
      RebuildUnfold(vs, oldDp, newDp, i, done, tempList, flag);
      if o.raised {
        return Rebuild(done + [o.after] + vs[i + 1..], [], false, true);
      }
      done := done + [o.after];
      if o.ret.Some? {
        flag := true;
        tempList := tempList + [PipeRef(newDp)];
      } else {
        tempList := tempList + [o.after];
      }
      i := i + 1;
    }
    assert done + [] == done && tempList + [] == tempList;
    t := Rebuild(done, tempList, flag, false);
  }

  /** One step of the tuple loop from `i`, with what came before in front. */
  lemma RebuildUnfold(vs: seq<Val>, oldDp: Id, newDp: Id, i: nat, done: seq<Val>, tempList: seq<Val>, flag: bool)
    requires i < |vs|
    ensures var o := Rewrite(vs[i], oldDp, newDp);
            var t := Join(done, tempList, flag, RebuildFrom(vs, oldDp, newDp, i));
            var slot := if o.ret.Some? then PipeRef(newDp) else o.after;
            (o.raised ==> t == Rebuild(done + [o.after] + vs[i + 1..], [], false, true))
            && (!o.raised ==> t == Join(done + [o.after], tempList + [slot], flag || o.ret.Some?,
                                        RebuildFrom(vs, oldDp, newDp, i + 1)))
  {
    var o := Rewrite(vs[i], oldDp, newDp);
    var slot := if o.ret.Some? then PipeRef(newDp) else o.after;
    assert done + ([o.after] + vs[i + 1..]) == done + [o.after] + vs[i + 1..];
    var rest := RebuildFrom(vs, oldDp, newDp, i + 1);
    assert done + ([o.after] + rest.items) == done + [o.after] + rest.items;
    assert tempList + ([slot] + rest.built) == tempList + [slot] + rest.built;
  }

  /** A tuple loop from `i`, with what the slots before `i` contributed put back in front. */
  function Join(done: seq<Val>, tempList: seq<Val>, flag: bool, t: Rebuild): Rebuild {
    if t.raised then Rebuild(done + t.items, [], false, true)
    else Rebuild(done + t.items, tempList + t.built, flag || t.flag, false)
  }
}
