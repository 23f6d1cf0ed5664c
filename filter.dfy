/** The filtering step of the batch scan: `results.filter(r => r !== null)`
    on the outcomes of one course, and the concatenation of the filtered
    outcomes of consecutive courses (src/app/api/search/route.ts, lines
    247-277). The lemmas locate each kept element in the grid of outcomes
    (course by section) it was taken from. */
module Filter {
  import opened Wrappers

  /** The present outcomes, in order: `filter(r => r !== null)`. */
  function Present<T>(rs: seq<Option<T>>): (found: seq<T>)
    ensures |found| <= |rs|
  {
    if |rs| == 0 then []
    else (if rs[0].Some? then [rs[0].value] else []) + Present(rs[1..])
  }
  /** `pos` lists, in increasing order, the position of each kept outcome,
      and every present outcome's position is listed: the kept outcomes are
      exactly the present ones, in input order. */
  ghost predicate Locates<T>(pos: seq<nat>, rs: seq<Option<T>>) {
    var found := Present(rs);
    && |pos| == |found|
    && (forall i :: 0 <= i < |pos| ==> pos[i] < |rs| && rs[pos[i]] == Some(found[i]))
    && (forall i, j :: 0 <= i < j < |pos| ==> pos[i] < pos[j])
    && (forall k :: 0 <= k < |rs| && rs[k].Some? ==> k in pos)
  }

  function Shift(pos: seq<nat>): (shifted: seq<nat>)
    ensures |shifted| == |pos|
    ensures forall k :: 0 <= k < |pos| ==> shifted[k] == pos[k] + 1
  {
    seq(|pos|, k requires 0 <= k < |pos| => pos[k] + 1)
  }
  /** The positions the kept outcomes come from. */
  ghost function PresentPositions<T>(rs: seq<Option<T>>): (pos: seq<nat>)
    ensures Locates(pos, rs)
  {
    if |rs| == 0 then []
    else
      var tail := PresentPositions(rs[1..]);
      if rs[0].Some? then
        LocatesSome(rs, tail);
        [0] + Shift(tail)
      else
        LocatesNone(rs, tail);
        Shift(tail)
  }

  lemma LocatesSome<T>(rs: seq<Option<T>>, tail: seq<nat>)
    requires |rs| > 0 && rs[0].Some? && Locates(tail, rs[1..])
    ensures Locates([0] + Shift(tail), rs)
  {
    var pos := [0] + Shift(tail);
    ConsValues(rs, tail);
    ConsOrdered(tail);
    ShiftCovers(rs, tail);
    assert forall k :: k in Shift(tail) ==> k in pos;
    assert 0 in pos;
  }

  /** Each position of `[0] + Shift(tail)` holds the matching kept outcome. */
  lemma ConsValues<T>(rs: seq<Option<T>>, tail: seq<nat>)
    requires |rs| > 0 && rs[0].Some?
    requires |tail| == |Present(rs[1..])|
    requires forall i :: 0 <= i < |tail| ==>
               tail[i] < |rs[1..]| && rs[1..][tail[i]] == Some(Present(rs[1..])[i])
    ensures |[0] + Shift(tail)| == |Present(rs)|
    ensures forall i :: 0 <= i < |[0] + Shift(tail)| ==>
              ([0] + Shift(tail))[i] < |rs| && rs[([0] + Shift(tail))[i]] == Some(Present(rs)[i])
  {
    var pos := [0] + Shift(tail);
    var found := Present(rs);
    var rest := Present(rs[1..]);
    assert found == [rs[0].value] + rest;
    forall i | 1 <= i < |pos|
      ensures pos[i] < |rs| && rs[pos[i]] == Some(found[i])
    {
      assert pos[i] == tail[i - 1] + 1;
      assert found[i] == rest[i - 1];
      assert rs[pos[i]] == rs[1..][tail[i - 1]];
    }
  }

  /** Putting 0 in front of increasing shifted positions keeps them increasing. */
  lemma ConsOrdered(tail: seq<nat>)
    requires forall i, j :: 0 <= i < j < |tail| ==> tail[i] < tail[j]
    ensures forall i, j :: 0 <= i < j < |[0] + Shift(tail)| ==> ([0] + Shift(tail))[i] < ([0] + Shift(tail))[j]
  {
    var pos := [0] + Shift(tail);
    forall i, j | 0 <= i < j < |pos|
      ensures pos[i] < pos[j]
    {
      assert pos[j] == tail[j - 1] + 1;
      if i > 0 {
        assert pos[i] == tail[i - 1] + 1;
      }
    }
  }

  lemma LocatesNone<T>(rs: seq<Option<T>>, tail: seq<nat>)
    requires |rs| > 0 && rs[0].None? && Locates(tail, rs[1..])
    ensures Locates(Shift(tail), rs)
  {
    var pos := Shift(tail);
    var found := Present(rs);
    var rest := Present(rs[1..]);
    assert found == rest;
    forall i | 0 <= i < |pos|
      ensures pos[i] < |rs| && rs[pos[i]] == Some(found[i])
    {
      assert rs[pos[i]] == rs[1..][tail[i]];
    }
    ShiftCovers(rs, tail);
  }

  /** Shifting the positions of the tail's present outcomes by one gives the
      positions of the present outcomes after the first. */
  lemma ShiftCovers<T>(rs: seq<Option<T>>, tail: seq<nat>)
    requires |rs| > 0
    requires forall k :: 0 <= k < |rs[1..]| && rs[1..][k].Some? ==> k in tail
    ensures forall k :: 0 < k < |rs| && rs[k].Some? ==> k in Shift(tail)
  {
    forall k | 0 < k < |rs| && rs[k].Some?
      ensures k in Shift(tail)
    {
      assert rs[1..][k - 1] == rs[k];
      var m :| 0 <= m < |tail| && tail[m] == k - 1;
      assert Shift(tail)[m] == k;
    }
  }

  function FlatPresent<T>(g: seq<seq<Option<T>>>): seq<T> {
    if |g| == 0 then [] else FlatPresent(g[..|g| - 1]) + Present(g[|g| - 1])
  }

  ghost predicate GridLocates<T>(pos: seq<(nat, nat)>, g: seq<seq<Option<T>>>) {
    var found := FlatPresent(g);
    && |pos| == |found|
    && (forall i :: 0 <= i < |pos| ==>
          pos[i].0 < |g| && pos[i].1 < |g[pos[i].0]| && g[pos[i].0][pos[i].1] == Some(found[i]))
    && (forall i, j :: 0 <= i < j < |pos| ==>
          pos[i].0 < pos[j].0 || (pos[i].0 == pos[j].0 && pos[i].1 < pos[j].1))
  }

  function Row(n: nat, pp: seq<nat>): (row: seq<(nat, nat)>)
    ensures |row| == |pp|
    ensures forall k :: 0 <= k < |pp| ==> row[k] == (n, pp[k])
  {
    seq(|pp|, k requires 0 <= k < |pp| => (n, pp[k]))
  }

  ghost function GridPositions<T>(g: seq<seq<Option<T>>>): (pos: seq<(nat, nat)>)
    ensures GridLocates(pos, g)
  {
    if |g| == 0 then []
    else
      var n := |g| - 1;
      var prev := GridPositions(g[..n]);
      var pp := PresentPositions(g[n]);
      GridLocatesAppend(g, prev, pp);
      prev + Row(n, pp)
  }

  lemma GridLocatesAppend<T>(g: seq<seq<Option<T>>>, prev: seq<(nat, nat)>, pp: seq<nat>)
    requires |g| > 0 && GridLocates(prev, g[..|g| - 1]) && Locates(pp, g[|g| - 1])
    ensures GridLocates(prev + Row(|g| - 1, pp), g)
  {
    var n := |g| - 1;
    var before := FlatPresent(g[..n]);
    var course := Present(g[n]);
    var found := FlatPresent(g);
    var last := Row(n, pp);
    var pos := prev + last;
    assert found == before + course;
    forall i | 0 <= i < |pos|
      ensures pos[i].0 < |g| && pos[i].1 < |g[pos[i].0]| && g[pos[i].0][pos[i].1] == Some(found[i])
    {
      if i < |prev| {
        assert found[i] == before[i];
        assert g[..n][prev[i].0] == g[prev[i].0];
      } else {
        var k := i - |prev|;
        assert found[i] == course[k];
      }
    }
    forall i, j | 0 <= i < j < |pos|
      ensures pos[i].0 < pos[j].0 || (pos[i].0 == pos[j].0 && pos[i].1 < pos[j].1)
    {
      if j >= |prev| && i >= |prev| {
        assert pos[i] == (n, pp[i - |prev|]) && pos[j] == (n, pp[j - |prev|]);
      } else if j >= |prev| {
        assert pos[i] == prev[i] && pos[j] == (n, pp[j - |prev|]);
      }
    }
  }

  /** Every present outcome of a row is kept. */
  lemma {:induction false} PresentKeeps<T>(rs: seq<Option<T>>, k: nat)
    requires k < |rs| && rs[k].Some?
    ensures rs[k].value in Present(rs)
  {
    if k > 0 {
      assert rs[1..][k - 1] == rs[k];
      PresentKeeps(rs[1..], k - 1);
    }
  }

  /** Every present outcome of the grid is kept. */
  lemma {:induction false} FlatPresentKeeps<T>(g: seq<seq<Option<T>>>, i: nat, j: nat)
    requires i < |g| && j < |g[i]| && g[i][j].Some?
    ensures g[i][j].value in FlatPresent(g)
    decreases |g|
  {
    var n := |g| - 1;
    if i == n {
      PresentKeeps(g[n], j);
    } else {
      assert g[..n][i] == g[i];
      FlatPresentKeeps(g[..n], i, j);
    }
  }

  /** A row with one present outcome followed by a missing one. */
  lemma PresentOfPair<T>(r: T)
    ensures Present([Some(r), None]) == [r]
  {
    var rs := [Some(r), None];
    assert rs[1..] == [None];
    assert rs[1..][1..] == [];
  }
}
