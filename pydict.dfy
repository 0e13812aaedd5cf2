/**
 * A Python `dict` from strings to strings, as the client uses it for cookies
 * and form payloads. Python dicts remember insertion order, and assigning to a
 * key that is already present keeps its position, so a dict is modelled as the
 * sequence of its items in that order.
 */
module PyDict {
  import opened Wrappers

  type Dict = seq<(string, string)>

  /** No key occurs twice: every value built by `Put` has this shape. */
  predicate DistinctKeys(d: Dict) {
    forall i, j :: 0 <= i < j < |d| ==> d[i].0 != d[j].0
  }

  predicate HasKey(d: Dict, k: string) {
    exists i :: 0 <= i < |d| && d[i].0 == k
  }

  /** Python's `d.get(k)`: the value stored under `k`, `None` when `k` is absent. */
  function Get(d: Dict, k: string): Option<string> {
    if d == [] then None
    else if d[0].0 == k then Some(d[0].1)
    else Get(d[1..], k)
  }

  /** `d.get(k)` finds a value exactly when `k` is a key, and then it is the value stored under `k`. */
  lemma {:induction false} GetSpec(d: Dict, k: string)
    ensures Get(d, k).None? <==> !HasKey(d, k)
    ensures Get(d, k).Some? ==> exists i :: 0 <= i < |d| && d[i] == (k, Get(d, k).value)
  {
    if d != [] && d[0].0 != k {
      GetSpec(d[1..], k);
      assert forall i :: 1 <= i < |d| ==> d[i] == d[1..][i - 1];
      if HasKey(d, k) {
        var i :| 0 <= i < |d| && d[i].0 == k;
        assert d[1..][i - 1].0 == k;
      }
    }
  }

  /**
   * Python's `d[k] = v`: a present key keeps its place and takes the new value,
   * an absent key is appended.
   */
  function Put(d: Dict, k: string, v: string): (r: Dict)
    ensures !HasKey(d, k) ==> r == d + [(k, v)]
    ensures HasKey(d, k) ==> |r| == |d|
    ensures forall i :: 0 <= i < |r| && r[i].0 != k ==> i < |d| && r[i] == d[i]
    ensures forall i :: 0 <= i < |d| ==> r[i].0 == d[i].0
  {
    if d == [] then [(k, v)]
    else if d[0].0 == k then [(k, v)] + d[1..]
    else
      var rest := Put(d[1..], k, v);
      assert !HasKey(d, k) ==> !HasKey(d[1..], k) by {
        if HasKey(d[1..], k) {
          var i :| 0 <= i < |d[1..]| && d[1..][i].0 == k;
          assert d[i + 1].0 == k;
        }
      }
      [d[0]] + rest
  }

  /** After `d[k] = v`, `d.get(k)` is `v` and every other key reads as before. */
  lemma {:induction false} GetPut(d: Dict, k: string, v: string, other: string)
    ensures Get(Put(d, k, v), k) == Some(v)
    ensures other != k ==> Get(Put(d, k, v), other) == Get(d, other)
  {
    if d != [] && d[0].0 != k {
      GetPut(d[1..], k, v, other);
      assert Put(d, k, v)[1..] == Put(d[1..], k, v);
    }
  }

  /** A key reads as the value stored beside its first occurrence. */
  lemma {:induction false} GetFirst(d: Dict, i: int)
    requires 0 <= i < |d| && forall j :: 0 <= j < i ==> d[j].0 != d[i].0
    ensures Get(d, d[i].0) == Some(d[i].1)
  {
    if i > 0 {
      assert d[1..][i - 1] == d[i];
      GetFirst(d[1..], i - 1);
    }
  }

  /** A non-empty dict is its items but the last, then the last. */
  lemma SnocLast(d: Dict)
    requires d != []
    ensures d[..|d| - 1] + [d[|d| - 1]] == d
  {
  }

  /** Assignment never introduces a repeated key. */
  lemma PutKeepsDistinct(d: Dict, k: string, v: string)
    requires DistinctKeys(d)
    ensures DistinctKeys(Put(d, k, v))
  {
  }

  /**
   * The dict built by assigning the pairs of `ps` one after the other, as the
   * loops `for ...: d[key] = value` in the client do.
   */
  function Collect(ps: Dict): (r: Dict)
    ensures DistinctKeys(r)
  {
    if ps == [] then []
    else
      var prev := Collect(ps[..|ps| - 1]);
      PutKeepsDistinct(prev, ps[|ps| - 1].0, ps[|ps| - 1].1);
      Put(prev, ps[|ps| - 1].0, ps[|ps| - 1].1)
  }

  /** One more assignment at the end of the loop: `Collect` is a left fold of `Put`. */
  lemma CollectSnoc(ps: Dict, k: string, v: string)
    ensures Collect(ps + [(k, v)]) == Put(Collect(ps), k, v)
  {
    assert (ps + [(k, v)])[..|ps|] == ps;
  }

  /** Pair `i` of `ps` assigns `v` to `k`, and no later pair assigns to `k` again. */
  ghost predicate LastAssignment(ps: Dict, k: string, v: string, i: int) {
    0 <= i < |ps| && ps[i] == (k, v) && forall j :: i < j < |ps| ==> ps[j].0 != k
  }

  /** A final pair that assigns to another key does not affect who last assigned `k`. */
  lemma LastAssignmentSkip(ps: Dict, k: string, v: string)
    requires ps != [] && ps[|ps| - 1].0 != k
    ensures forall i :: LastAssignment(ps, k, v, i) <==> LastAssignment(ps[..|ps| - 1], k, v, i)
    ensures HasKey(ps, k) <==> HasKey(ps[..|ps| - 1], k)
  {
    var n := |ps| - 1;
    var init := ps[..n];
    forall i ensures LastAssignment(ps, k, v, i) <==> LastAssignment(init, k, v, i) {
      if 0 <= i < n {
        assert init[i] == ps[i];
        assert forall j :: i < j < n ==> init[j] == ps[j];
      }
    }
    if HasKey(ps, k) {
      var i :| 0 <= i < |ps| && ps[i].0 == k;
      assert init[i] == ps[i];
    }
    if HasKey(init, k) {
      var i :| 0 <= i < |init| && init[i].0 == k;
      assert ps[i] == init[i];
    }
  }

  /** A final pair that assigns to `k` is the last assignment to `k`. */
  lemma LastAssignmentFinal(ps: Dict, k: string, v: string)
    requires ps != [] && ps[|ps| - 1].0 == k
    ensures (exists i :: LastAssignment(ps, k, v, i)) <==> ps[|ps| - 1].1 == v
  {
    var n := |ps| - 1;
    if ps[n].1 == v {
      assert LastAssignment(ps, k, v, n);
    }
    forall i | LastAssignment(ps, k, v, i) ensures i == n {
    }
  }

  /**
   * The last assignment to a key wins: `k` reads as `v` after the loop exactly
   * when some pair assigns `v` to `k` and no later pair assigns to `k`.
   */
  lemma {:induction false} CollectLastWins(ps: Dict, k: string, v: string)
    ensures Get(Collect(ps), k) == Some(v) <==> exists i :: LastAssignment(ps, k, v, i)
  {
    if ps != [] {
      var n := |ps| - 1;
      var init := ps[..n];
      assert Collect(ps) == Put(Collect(init), ps[n].0, ps[n].1);
      GetPut(Collect(init), ps[n].0, ps[n].1, k);
      if ps[n].0 == k {
        assert Get(Collect(ps), k) == Some(ps[n].1);
        LastAssignmentFinal(ps, k, v);
      } else {
        var prev := Collect(init);
        assert Get(Collect(ps), k) == Get(prev, k);
        CollectLastWins(init, k, v);
        LastAssignmentSkip(ps, k, v);
        if Get(prev, k) == Some(v) {
          var i :| LastAssignment(init, k, v, i);
          assert LastAssignment(ps, k, v, i);
        }
        if exists i :: LastAssignment(ps, k, v, i) {
          var i :| LastAssignment(ps, k, v, i);
          assert LastAssignment(init, k, v, i);
        }
      }
    } else {
      assert Get(Collect(ps), k) == None;
      assert forall i :: !LastAssignment(ps, k, v, i);
    }
  }

  /** A key is absent after the loop exactly when no pair assigns to it. */
  lemma {:induction false} CollectAbsent(ps: Dict, k: string)
    ensures Get(Collect(ps), k).None? <==> !HasKey(ps, k)
  {
    if ps != [] {
      var n := |ps| - 1;
      var init := ps[..n];
      assert Collect(ps) == Put(Collect(init), ps[n].0, ps[n].1);
      GetPut(Collect(init), ps[n].0, ps[n].1, k);
      if ps[n].0 != k {
        CollectAbsent(init, k);
        LastAssignmentSkip(ps, k, "");
      } else {
        assert HasKey(ps, k);
      }
    }
  }

  /** Assigning the items of a dict, in order, to an empty dict rebuilds it. */
  lemma {:induction false} CollectOfDict(d: Dict)
    requires DistinctKeys(d)
    ensures Collect(d) == d
  {
    if d != [] {
      var n := |d| - 1;
      CollectOfDict(d[..n]);
      assert !HasKey(d[..n], d[n].0);
      SnocLast(d);
    }
  }

  /**
   * Assigning `xs` and then `ys`: a key reads as `ys` left it when `ys`
   * assigns to it, and as `xs` left it otherwise.
   */
  lemma {:induction false} CollectAppend(xs: Dict, ys: Dict, k: string)
    ensures Get(Collect(xs + ys), k)
            == if Get(Collect(ys), k).Some? then Get(Collect(ys), k) else Get(Collect(xs), k)
  {
    if ys == [] {
      assert xs + ys == xs;
    } else {
      var n := |ys| - 1;
      var p := ys[n];
      var init := ys[..n];
      assert (xs + ys)[..|xs + ys| - 1] == xs + init;
      assert Collect(xs + ys) == Put(Collect(xs + init), p.0, p.1);
      assert Collect(ys) == Put(Collect(init), p.0, p.1);
      GetPut(Collect(xs + init), p.0, p.1, k);
      GetPut(Collect(init), p.0, p.1, k);
      CollectAppend(xs, init, k);
    }
  }
}
