/** The helpers behind the interpreter's state diff: capturing how a vector
    (call frames, receipts) or a map (storage, memory pages) differs between
    a desired and a latest state, and inverting one recorded change so that
    the latest state moves back towards the desired one.

    Capturing is pure; inverting updates the vector or map in place, which
    the classes `StateVec` and `StateMap` below model. */
module Diff {
  import opened Wrappers

  /** One recorded vector position: the value it should have, or `None`
      when the position should not exist. */
  datatype VecState<T> = VecState(index: nat, value: Option<T>)

  /** One captured vector difference: the desired (`from`) and latest (`to`)
      value at `index`. */
  datatype VecDelta<T> = VecDelta(index: nat, from: Option<T>, to: Option<T>)

  /** One recorded map entry: the value the key should have, or `None` when
      it should be absent. */
  datatype MapState<K, V> = MapState(key: K, value: Option<V>)

  function Max(a: nat, b: nat): nat { if a < b then b else a }
  function Min(a: nat, b: nat): nat { if a < b then a else b }

  /** `v[i]`, or `None` past the end. */
  function At<T>(v: seq<T>, i: nat): Option<T>
  {
    if i < |v| then Some(v[i]) else None
  }

  // ---------------------------------------------------------------------------
  // Capturing differences
  // ---------------------------------------------------------------------------

  /** The differences at positions `i` and above. */
  function CaptureVecFrom<T(==)>(desired: seq<T>, latest: seq<T>, i: nat): (ds: seq<VecDelta<T>>)
    ensures forall k :: 0 <= k < |ds| ==>
      i <= ds[k].index < Max(|desired|, |latest|)
      && ds[k].from == At(desired, ds[k].index) && ds[k].to == At(latest, ds[k].index)
      && ds[k].from != ds[k].to
    ensures forall k, l :: 0 <= k < l < |ds| ==> ds[k].index < ds[l].index
    decreases Max(|desired|, |latest|) - i
  {
    if i >= |desired| && i >= |latest| then []
    else
      var rest := CaptureVecFrom(desired, latest, i + 1);
      if At(desired, i) != At(latest, i) then
        var ds := [VecDelta(i, At(desired, i), At(latest, i))] + rest;
        assert forall k :: 1 <= k < |ds| ==> ds[k] == rest[k - 1];
        ds
      else rest
  }

  /** `capture_vec_state_inner(desired, latest)`: every position below the
      longer length where the two differ, in ascending order, with `None` on
      the side that is too short. */
  function CaptureVec<T(==)>(desired: seq<T>, latest: seq<T>): seq<VecDelta<T>>
  {
    CaptureVecFrom(desired, latest, 0)
  }

  /** Every position at or above `i` where the vectors differ is reported. */
  lemma {:induction false} CaptureVecComplete<T>(desired: seq<T>, latest: seq<T>, i: nat, j: nat)
    requires i <= j < Max(|desired|, |latest|) && At(desired, j) != At(latest, j)
    ensures exists k :: 0 <= k < |CaptureVecFrom(desired, latest, i)| && CaptureVecFrom(desired, latest, i)[k].index == j
    decreases j - i
  {
    if i < j {
      CaptureVecComplete(desired, latest, i + 1, j);
      var rest := CaptureVecFrom(desired, latest, i + 1);
      var k :| 0 <= k < |rest| && rest[k].index == j;
      CaptureVecStillReported(desired, latest, i, j, k);
    } else {
      CaptureVecFirstReported(desired, latest, i);
    }
  }

  lemma CaptureVecStillReported<T>(desired: seq<T>, latest: seq<T>, i: nat, j: nat, k: nat)
    requires i < j < Max(|desired|, |latest|)
    requires k < |CaptureVecFrom(desired, latest, i + 1)| && CaptureVecFrom(desired, latest, i + 1)[k].index == j
    ensures exists k :: 0 <= k < |CaptureVecFrom(desired, latest, i)| && CaptureVecFrom(desired, latest, i)[k].index == j
  {
    var rest := CaptureVecFrom(desired, latest, i + 1);
    var ds := CaptureVecFrom(desired, latest, i);
    CaptureVecUnfold(desired, latest, i);
    if At(desired, i) != At(latest, i) {
      assert ds[k + 1] == rest[k];
      ReportedAt(ds, k + 1, j);
    } else {
      ReportedAt(ds, k, j);
    }
  }

  lemma CaptureVecFirstReported<T>(desired: seq<T>, latest: seq<T>, i: nat)
    requires i < Max(|desired|, |latest|) && At(desired, i) != At(latest, i)
    ensures exists k :: 0 <= k < |CaptureVecFrom(desired, latest, i)| && CaptureVecFrom(desired, latest, i)[k].index == i
  {
    CaptureVecUnfold(desired, latest, i);
    ReportedAt(CaptureVecFrom(desired, latest, i), 0, i);
  }

  lemma ReportedAt<T>(ds: seq<VecDelta<T>>, k: nat, j: nat)
    requires k < |ds| && ds[k].index == j
    ensures exists k' :: 0 <= k' < |ds| && ds[k'].index == j
  {
  }

  /** One step of `CaptureVecFrom`: position `i` is reported first when it differs. */
  lemma CaptureVecUnfold<T>(desired: seq<T>, latest: seq<T>, i: nat)
    requires i < Max(|desired|, |latest|)
    ensures At(desired, i) != At(latest, i) ==>
      CaptureVecFrom(desired, latest, i) == [VecDelta(i, At(desired, i), At(latest, i))] + CaptureVecFrom(desired, latest, i + 1)
    ensures At(desired, i) == At(latest, i) ==>
      CaptureVecFrom(desired, latest, i) == CaptureVecFrom(desired, latest, i + 1)
  {
  }

  /** Where every position differs, there is one entry per position. */
  lemma {:induction false} CaptureVecAllDiffer<T>(desired: seq<T>, latest: seq<T>, i: nat)
    requires i <= Max(|desired|, |latest|)
    requires forall j :: i <= j < Max(|desired|, |latest|) ==> At(desired, j) != At(latest, j)
    ensures |CaptureVecFrom(desired, latest, i)| == Max(|desired|, |latest|) - i
    ensures forall k :: 0 <= k < |CaptureVecFrom(desired, latest, i)| ==> CaptureVecFrom(desired, latest, i)[k].index == i + k
    decreases Max(|desired|, |latest|) - i
  {
    if i < Max(|desired|, |latest|) {
      CaptureVecAllDiffer(desired, latest, i + 1);
      var rest := CaptureVecFrom(desired, latest, i + 1);
      assert At(desired, i) != At(latest, i);
      CaptureVecUnfold(desired, latest, i);
    }
  }

  /** Equal vectors have no differences; vectors that differ at every
      position have one entry per position up to the longer length. */
  lemma CaptureVecCounts<T>(desired: seq<T>, latest: seq<T>)
    ensures desired == latest ==> CaptureVec(desired, latest) == []
    ensures (forall j :: 0 <= j < Max(|desired|, |latest|) ==> At(desired, j) != At(latest, j)) ==>
      |CaptureVec(desired, latest)| == Max(|desired|, |latest|)
      && forall k :: 0 <= k < |CaptureVec(desired, latest)| ==> CaptureVec(desired, latest)[k].index == k
  {
    var ds := CaptureVec(desired, latest);
    assert |ds| > 0 ==> ds[0].from == At(desired, ds[0].index) && ds[0].to == At(latest, ds[0].index);
    if forall j :: 0 <= j < Max(|desired|, |latest|) ==> At(desired, j) != At(latest, j) {
      CaptureVecAllDiffer(desired, latest, 0);
    }
  }

  /** `capture_map_state_inner(desired, keys, latest, keys)`, keyed by map
      key since each key is reported at most once: every key present in
      either map whose entries differ, with `None` on the side lacking it. */
  function CaptureMap<K(==,!new), V(==)>(desired: map<K, V>, latest: map<K, V>): (d: map<K, (Option<V>, Option<V>)>)
    ensures forall k :: k in d <==> (k in desired || k in latest) && Get(desired, k) != Get(latest, k)
    ensures forall k :: k in d ==> d[k] == (Get(desired, k), Get(latest, k))
  {
    map k | k in desired.Keys + latest.Keys && Get(desired, k) != Get(latest, k) :: (Get(desired, k), Get(latest, k))
  }

  lemma CaptureMapIdentity<K(!new), V>(m: map<K, V>)
    ensures CaptureMap(m, m) == map[]
  {
  }

  // ---------------------------------------------------------------------------
  // Inverting one change
  // ---------------------------------------------------------------------------

  /** `invert_vec`: a value at an existing position overwrites it; a value
      at or past the end extends the vector, filling every new slot up to
      the index with that value; `None` truncates the vector to the index
      (a no-op when the index is past the end). */
  function InvertedVec<T>(v: seq<T>, s: VecState<T>): (r: seq<T>)
    ensures s.value.Some? && s.index < |v| ==> r == v[s.index := s.value.value]
    ensures s.value.Some? && s.index >= |v| ==>
      |r| == s.index + 1 && r[..|v|] == v && forall j :: |v| <= j < |r| ==> r[j] == s.value.value
    ensures s.value.None? ==> r == v[..Min(s.index, |v|)]
  {
    match s.value
    case Some(x) =>
      if s.index < |v| then v[s.index := x] else v + seq(s.index + 1 - |v|, _ => x)
    case None =>
      if s.index < |v| then v[..s.index] else v
  }

  /** `invert_map`: a value inserts or overwrites the key, `None` removes
      it. No other key changes. */
  function InvertedMap<K(!new), V>(m: map<K, V>, s: MapState<K, V>): (r: map<K, V>)
    ensures Get(r, s.key) == s.value
    ensures forall k :: k != s.key ==> Get(r, k) == Get(m, k)
  {
    match s.value
    case Some(x) => m[s.key := x]
    case None => m - {s.key}
  }

  /** All twelve rows of the `invert_vec` test table. */
  lemma InvertVecTable()
    ensures InvertedVec<int>([], VecState(0, None)) == []
    ensures InvertedVec<int>([12], VecState(0, None)) == []
    ensures InvertedVec<int>([12, 13], VecState(0, None)) == []
    ensures InvertedVec([], VecState(0, Some(1))) == [1]
    ensures InvertedVec([12], VecState(0, Some(1))) == [1]
    ensures InvertedVec([12, 13], VecState(0, Some(1))) == [1, 13]
    ensures InvertedVec([12, 13], VecState(1, Some(1))) == [12, 1]
    ensures InvertedVec([12, 13], VecState(3, Some(1))) == [12, 13, 1, 1]
    ensures InvertedVec([], VecState(3, Some(1))) == [1, 1, 1, 1]
    ensures InvertedVec<int>([], VecState(3, None)) == []
    ensures InvertedVec([12, 13, 14], VecState(1, Some(1))) == [12, 1, 14]
    ensures InvertedVec([12, 13, 14], VecState(1, None)) == [12]
  {
    assert [12, 13] + seq(2, _ => 1) == [12, 13, 1, 1];
    assert seq(4, _ => 1) == [1, 1, 1, 1];
    assert [12, 13, 14][..1] == [12];
  }

  // ---------------------------------------------------------------------------
  // Restoring a captured state
  // ---------------------------------------------------------------------------

  /** Inverting every captured difference, in order, back to its desired
      value. */
  function RestoreVec<T>(v: seq<T>, ds: seq<VecDelta<T>>): seq<T>
    decreases |ds|
  {
    if ds == [] then v else RestoreVec(InvertedVec(v, VecState(ds[0].index, ds[0].from)), ds[1..])
  }

  /** The vector after the differences below `i` have been inverted. */
  function PartlyRestored<T>(desired: seq<T>, latest: seq<T>, i: nat): seq<T>
  {
    desired[..Min(i, |desired|)] + (if i <= |desired| && i <= |latest| then latest[i..] else [])
  }

  lemma RestoreStep<T>(desired: seq<T>, latest: seq<T>, i: nat)
    requires i < Max(|desired|, |latest|)
    ensures At(desired, i) != At(latest, i) ==>
      InvertedVec(PartlyRestored(desired, latest, i), VecState(i, At(desired, i)))
        == PartlyRestored(desired, latest, i + 1)
    ensures At(desired, i) == At(latest, i) ==>
      PartlyRestored(desired, latest, i) == PartlyRestored(desired, latest, i + 1)
  {
    var m := PartlyRestored(desired, latest, i);
    var m' := PartlyRestored(desired, latest, i + 1);
    if i < |desired| && i < |latest| {
      assert desired[..i + 1] == desired[..i] + [desired[i]];
      assert latest[i..] == [latest[i]] + latest[i + 1..];
      assert m' == desired[..i] + [desired[i]] + latest[i + 1..];
      if At(desired, i) != At(latest, i) {
        assert m[i := desired[i]] == m';
      }
    } else if i < |desired| {
      assert m == desired[..i] && m' == desired[..i + 1];
    } else if i == |desired| {
      assert desired[..i] == desired;
      assert m[..i] == desired;
    }
  }

  lemma {:induction false} RestorePartly<T>(desired: seq<T>, latest: seq<T>, i: nat)
    ensures RestoreVec(PartlyRestored(desired, latest, i), CaptureVecFrom(desired, latest, i)) == desired
    decreases Max(|desired|, |latest|) - i
  {
    if i >= |desired| && i >= |latest| {
      assert desired[..|desired|] == desired;
    } else {
      RestoreStep(desired, latest, i);
      RestorePartly(desired, latest, i + 1);
      var rest := CaptureVecFrom(desired, latest, i + 1);
      if At(desired, i) != At(latest, i) {
        var ds := [VecDelta(i, At(desired, i), At(latest, i))] + rest;
        assert CaptureVecFrom(desired, latest, i) == ds;
        assert ds[1..] == rest;
      }
    }
  }

  /** Inverting what `capture_vec_state_inner(desired, latest)` reports,
      in order, turns `latest` back into `desired`. */
  lemma RestoreCapturedVec<T>(desired: seq<T>, latest: seq<T>)
    ensures RestoreVec(latest, CaptureVec(desired, latest)) == desired
  {
    assert PartlyRestored(desired, latest, 0) == latest;
    RestorePartly(desired, latest, 0);
  }

  /** Inverting a list of recorded map entries, in order. */
  function RestoreMap<K(!new), V>(m: map<K, V>, changes: seq<MapState<K, V>>): map<K, V>
    decreases |changes|
  {
    if changes == [] then m else RestoreMap(InvertedMap(m, changes[0]), changes[1..])
  }

  /** `changes` lists each captured key exactly once, with its desired
      value, in any order. */
  predicate Enumerates<K(!new), V(==)>(changes: seq<MapState<K, V>>, captured: map<K, (Option<V>, Option<V>)>)
  {
    (forall i, j :: 0 <= i < j < |changes| ==> changes[i].key != changes[j].key)
    && (forall i :: 0 <= i < |changes| ==>
          changes[i].key in captured && changes[i].value == captured[changes[i].key].0)
    && (forall k :: k in captured ==> exists i :: 0 <= i < |changes| && changes[i].key == k)
  }

  lemma {:induction false} RestoreMapFrame<K(!new), V>(m: map<K, V>, changes: seq<MapState<K, V>>)
    requires forall i, j :: 0 <= i < j < |changes| ==> changes[i].key != changes[j].key
    ensures forall k :: (forall i :: 0 <= i < |changes| ==> changes[i].key != k) ==>
      Get(RestoreMap(m, changes), k) == Get(m, k)
    ensures forall i :: 0 <= i < |changes| ==> Get(RestoreMap(m, changes), changes[i].key) == changes[i].value
    decreases |changes|
  {
    if changes != [] {
      var m' := InvertedMap(m, changes[0]);
      RestoreMapFrame(m', changes[1..]);
      forall i | 0 <= i < |changes|
        ensures Get(RestoreMap(m, changes), changes[i].key) == changes[i].value
      {
        if i > 0 {
          assert changes[i] == changes[1..][i - 1];
        } else {
          assert forall j :: 0 <= j < |changes[1..]| ==> changes[1..][j].key != changes[0].key;
        }
      }
    }
  }

  /** Inverting every entry `capture_map_state_inner(desired, latest)`
      reports, in whatever order the key set yields them, turns `latest`
      back into `desired`. */
  lemma RestoreCapturedMap<K(!new), V>(desired: map<K, V>, latest: map<K, V>, changes: seq<MapState<K, V>>)
    requires Enumerates(changes, CaptureMap(desired, latest))
    ensures RestoreMap(latest, changes) == desired
  {
    var r := RestoreMap(latest, changes);
    RestoreMapFrame(latest, changes);
    forall k
      ensures Get(r, k) == Get(desired, k)
    {
      RestoredKey(desired, latest, changes, k);
    }
    GetExtensional(r, desired);
  }

  /** One key after inverting the captured entries: a listed key gets its
      desired value back, any other key already had it. */
  lemma RestoredKey<K(!new), V>(desired: map<K, V>, latest: map<K, V>, changes: seq<MapState<K, V>>, k: K)
    requires Enumerates(changes, CaptureMap(desired, latest))
    requires forall k :: (forall i :: 0 <= i < |changes| ==> changes[i].key != k) ==>
      Get(RestoreMap(latest, changes), k) == Get(latest, k)
    requires forall i :: 0 <= i < |changes| ==> Get(RestoreMap(latest, changes), changes[i].key) == changes[i].value
    ensures Get(RestoreMap(latest, changes), k) == Get(desired, k)
  {
    var captured := CaptureMap(desired, latest);
    if k in captured {
      var i :| 0 <= i < |changes| && changes[i].key == k;
    } else {
      assert forall i :: 0 <= i < |changes| ==> changes[i].key != k;
    }
  }

  /** Two maps that agree on every lookup are equal. */
  lemma GetExtensional<K, V>(a: map<K, V>, b: map<K, V>)
    requires forall k :: Get(a, k) == Get(b, k)
    ensures a == b
  {
    assert forall k :: k in a <==> k in b by {
      forall k
        ensures k in a <==> k in b
      {
        assert Get(a, k) == Get(b, k);
      }
    }
    forall k | k in a
      ensures a[k] == b[k]
    {
      assert Get(a, k) == Get(b, k);
    }
  }

  // ---------------------------------------------------------------------------
  // In-place inversion
  // ---------------------------------------------------------------------------

  /** A vector of VM state (call frames, receipts) that a diff restores. */
  class StateVec<T(==)> {
    var items: seq<T>

    constructor(items: seq<T>)
      ensures this.items == items
    {
      this.items := items;
    }

    /** `invert_vec(&mut self.items, state)`. */
    method Invert(s: VecState<T>)
      modifies this
      ensures items == InvertedVec(old(items), s)
    {
      match s.value {
        case Some(x) =>
          if s.index < |items| {
            items := items[s.index := x];
          } else {
            items := items + seq(s.index + 1 - |items|, _ => x);
          }
        case None =>
          if s.index < |items| {
            items := items[..s.index];
          }
      }
    }

    /** Inverts each captured difference in turn, back to its desired value. */
    method Restore(ds: seq<VecDelta<T>>)
      modifies this
      ensures items == RestoreVec(old(items), ds)
    {
      var i := 0;
      while i < |ds|
        invariant 0 <= i <= |ds|
        invariant RestoreVec(items, ds[i..]) == RestoreVec(old(items), ds)
      {
        assert ds[i..][1..] == ds[i + 1..];
        Invert(VecState(ds[i].index, ds[i].from));
        i := i + 1;
      }
    }
  }

  /** A map of VM state (storage slots, memory) that a diff restores. */
  class StateMap<K(==,!new), V(==)> {
    var entries: map<K, V>

    constructor(entries: map<K, V>)
      ensures this.entries == entries
    {
      this.entries := entries;
    }

    /** `invert_map(&mut self.entries, state)`. */
    method Invert(s: MapState<K, V>)
      modifies this
      ensures entries == InvertedMap(old(entries), s)
    {
      match s.value {
        case Some(x) =>
          entries := entries[s.key := x];
        case None =>
          entries := entries - {s.key};
      }
    }

    method Restore(changes: seq<MapState<K, V>>)
      modifies this
      ensures entries == RestoreMap(old(entries), changes)
    {
      var i := 0;
      while i < |changes|
        invariant 0 <= i <= |changes|
        invariant RestoreMap(entries, changes[i..]) == RestoreMap(old(entries), changes)
      {
        assert changes[i..][1..] == changes[i + 1..];
        Invert(changes[i]);
        i := i + 1;
      }
    }
  }
}
