/** Keeping one finding per path (tests/git_diff_discovery.rs, the fold over
    a HashMap at lines 522-533 and 586-597, and the deduplication that
    `check_history_blobs` performs). Findings are visited in order; for each
    path the entry with the strictly larger `sortKey` replaces the kept one,
    so among equal keys the first finding seen stays. */
module Dedup {
  import opened Base
  import opened Violations

  /** The map the fold has built after visiting `vs` in order. */
  function Best(vs: seq<Violation>): (m: map<Path, Violation>)
    ensures forall p | p in m :: m[p].path == p
    decreases |vs|
  {
    if vs == [] then map[]
    else
      var m := Best(vs[..|vs| - 1]);
      var v := vs[|vs| - 1];
      if v.path !in m || v.sortKey > m[v.path].sortKey then m[v.path := v] else m
  }

  /** The paths of a list of findings. */
  function Paths(vs: seq<Violation>): set<Path>
  {
    set i | 0 <= i < |vs| :: vs[i].path
  }

  /** Every input path is kept, and no other. */
  lemma {:induction false} BestKeys(vs: seq<Violation>)
    ensures Best(vs).Keys == Paths(vs)
    decreases |vs|
  {
    if vs != [] {
      var init := vs[..|vs| - 1];
      BestKeys(init);
      assert Paths(vs) == Paths(init) + {vs[|vs| - 1].path} by {
        forall p | p in Paths(vs) ensures p in Paths(init) + {vs[|vs| - 1].path} {
          var i :| 0 <= i < |vs| && vs[i].path == p;
          if i < |vs| - 1 {
            assert init[i] == vs[i];
          }
        }
        forall p | p in Paths(init) ensures p in Paths(vs) {
          var i :| 0 <= i < |init| && init[i].path == p;
          assert vs[i] == init[i];
        }
      }
    }
  }

  /** Each kept finding is one of the inputs, unchanged. */
  lemma {:induction false} BestFromInput(vs: seq<Violation>, p: Path)
    requires p in Best(vs)
    ensures Best(vs)[p] in vs
    decreases |vs|
  {
    var init := vs[..|vs| - 1];
    if Best(vs)[p] != vs[|vs| - 1] {
      BestFromInput(init, p);
    }
  }

  /** The kept finding of a path has the largest key among that path's
      findings. */
  lemma {:induction false} BestLargest(vs: seq<Violation>, i: nat)
    requires i < |vs|
    ensures vs[i].path in Best(vs) && vs[i].sortKey <= Best(vs)[vs[i].path].sortKey
    decreases |vs|
  {
    var init := vs[..|vs| - 1];
    if i < |vs| - 1 {
      assert init[i] == vs[i];
      BestLargest(init, i);
    }
  }

  /** The kept finding of a path is the first of that path's findings that
      has the largest `sortKey`. */
  lemma {:induction false} BestIsFirstLargest(vs: seq<Violation>, k: nat)
    requires k < |vs|
    requires forall i | 0 <= i < k && vs[i].path == vs[k].path :: vs[i].sortKey < vs[k].sortKey
    requires forall i | k < i < |vs| && vs[i].path == vs[k].path :: vs[i].sortKey <= vs[k].sortKey
    ensures vs[k].path in Best(vs) && Best(vs)[vs[k].path] == vs[k]
    decreases |vs|
  {
    var init := vs[..|vs| - 1];
    if k < |vs| - 1 {
      assert init[k] == vs[k];
      BestIsFirstLargest(init, k);
    } else {
      var m := Best(init);
      if vs[k].path in m {
        BestFromInput(init, vs[k].path);
        var j :| 0 <= j < |init| && init[j] == m[vs[k].path];
      }
    }
  }

  /** Findings fed in later never displace an earlier one unless their key
      is strictly larger: live-tree findings, fed in first, win ties against
      the findings from history. */
  lemma {:induction false} EarlierWinsTies(a: seq<Violation>, b: seq<Violation>, p: Path)
    requires p in Best(a)
    requires forall i | 0 <= i < |b| && b[i].path == p :: b[i].sortKey <= Best(a)[p].sortKey
    ensures p in Best(a + b) && Best(a + b)[p] == Best(a)[p]
    decreases |b|
  {
    if b != [] {
      var init := b[..|b| - 1];
      assert (a + b)[..|a + b| - 1] == a + init;
      EarlierWinsTies(a, init, p);
    } else {
      assert a + b == a;
    }
  }

  /** The fold itself, over a map updated in place. */
  method KeepLargest(vs: seq<Violation>) returns (best: map<Path, Violation>)
    ensures best == Best(vs)
  {
    best := map[];
    var i := 0;
    while i < |vs|
      invariant 0 <= i <= |vs|
      invariant best == Best(vs[..i])
    {
      var v := vs[i];
      assert vs[..i + 1][..i] == vs[..i];
      if v.path in best {
        if v.sortKey > best[v.path].sortKey {
          best := best[v.path := v];
        }
      } else {
        best := best[v.path := v];
      }
      i := i + 1;
    }
    assert vs[..i] == vs;
  }

  /** `HashMap::into_values().collect()`: every kept finding once, in the
      map's unspecified order. */
  method IntoValues(best: map<Path, Violation>) returns (r: seq<Violation>)
    requires forall p | p in best :: best[p].path == p
    ensures |r| == |best.Keys|
    ensures forall v :: v in r <==> v in best.Values
    ensures forall i, j | 0 <= i < j < |r| :: r[i].path != r[j].path
  {
    r := [];
    var remaining := best.Keys;
    while remaining != {}
      invariant remaining <= best.Keys
      invariant |r| + |remaining| == |best.Keys|
      invariant forall v :: v in r <==> v.path in best.Keys - remaining && best[v.path] == v
      invariant forall i, j | 0 <= i < j < |r| :: r[i].path != r[j].path
      decreases remaining
    {
      var p :| p in remaining;
      r := r + [best[p]];
      remaining := remaining - {p};
    }
    forall v | v in best.Values
      ensures v in r
    {
      var p :| p in best && best[p] == v;
    }
  }

  /** What a deduplicated list holds: one finding per path, each the
      finding the fold keeps for that path. */
  ghost predicate IsDedupOf(r: seq<Violation>, vs: seq<Violation>)
  {
    |r| == |Paths(vs)| &&
    (forall v :: v in r <==> v in Best(vs).Values) &&
    (forall i, j | 0 <= i < j < |r| :: r[i].path != r[j].path)
  }

  /** The fold followed by the collection of its values. */
  method Deduplicate(vs: seq<Violation>) returns (r: seq<Violation>)
    ensures IsDedupOf(r, vs)
  {
    var best := KeepLargest(vs);
    BestKeys(vs);
    r := IntoValues(best);
  }

  /** Reading a deduplicated list: every input path appears exactly once,
      and with the largest key seen for it. */
  lemma DedupMeaning(r: seq<Violation>, vs: seq<Violation>)
    requires IsDedupOf(r, vs)
    ensures forall i | 0 <= i < |vs| :: exists j | 0 <= j < |r| :: r[j].path == vs[i].path
    ensures forall j, i | 0 <= j < |r| && 0 <= i < |vs| && vs[i].path == r[j].path ::
              vs[i].sortKey <= r[j].sortKey
    ensures forall j | 0 <= j < |r| :: r[j] in vs
  {
    var m := Best(vs);
    forall i | 0 <= i < |vs|
      ensures exists j | 0 <= j < |r| :: r[j].path == vs[i].path
    {
      BestLargest(vs, i);
      assert m[vs[i].path] in m.Values;
      var j :| 0 <= j < |r| && r[j] == m[vs[i].path];
    }
    forall j, i | 0 <= j < |r| && 0 <= i < |vs| && vs[i].path == r[j].path
      ensures vs[i].sortKey <= r[j].sortKey
    {
      assert r[j] in m.Values;
      var p :| p in m && m[p] == r[j];
      BestLargest(vs, i);
    }
    forall j | 0 <= j < |r|
      ensures r[j] in vs
    {
      assert r[j] in m.Values;
      var p :| p in m && m[p] == r[j];
      BestFromInput(vs, p);
    }
  }

  /** Findings that all concern one path are deduplicated to a single
      finding: the first one with the largest key. */
  lemma DedupOnePath(r: seq<Violation>, vs: seq<Violation>, k: nat)
    requires IsDedupOf(r, vs)
    requires k < |vs|
    requires forall i | 0 <= i < |vs| :: vs[i].path == vs[k].path
    requires forall i | 0 <= i < k :: vs[i].sortKey < vs[k].sortKey
    requires forall i | k < i < |vs| :: vs[i].sortKey <= vs[k].sortKey
    ensures r == [vs[k]]
  {
    var p := vs[k].path;
    assert Paths(vs) == {p} by {
      forall q | q in Paths(vs) ensures q == p {
        var i :| 0 <= i < |vs| && vs[i].path == q;
      }
    }
    BestKeys(vs);
    BestIsFirstLargest(vs, k);
    assert r[0] in Best(vs).Values;
    var q :| q in Best(vs) && Best(vs)[q] == r[0];
  }
}
