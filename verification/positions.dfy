/**
 The position state machines of the two backtesters.

 The gated machine (src/backtest.py) walks the bars once with a state
 (position, days held). A flat state resets the day count and opens long
 (+1) when the gate is on and pred_z < -entry_z, short (-1) when the gate is
 on and pred_z > entry_z. An open state counts one more day and closes when
 z crosses exit_z against the position or when the time stop has run out.

 The simple machine (root pairs_ml.py) is the same scan without gate or
 time stop.

 Each machine is stated twice: as the loop the source runs (a method) and as
 a per-bar rule over the whole output (a predicate). The method is proved to
 satisfy the rule, and the rule has exactly one solution.
 */
module Positions {

  /** What the scan reads on one bar. */
  datatype Bar = Bar(gate: bool, predZ: real, z: real)

  /** entry_z, exit_z and time_stop (0 or negative disables the stop). */
  datatype Params = Params(entryZ: real, exitZ: real, timeStop: int)

  /** The exit on z: a long closes at z <= exit_z, a short at z >= exit_z. */
  predicate ExitByZ(pos: int, z: real, exitZ: real) {
    (pos > 0 && z <= exitZ) || (pos < 0 && z >= exitZ)
  }

  /** The position opened from flat. */
  function Entry(gate: bool, predZ: real, entryZ: real): (p: int)
    ensures -1 <= p <= 1
    ensures p == 1 <==> gate && predZ < -entryZ
    ensures p == -1 <==> gate && predZ > entryZ && !(predZ < -entryZ)
  {
    if gate && predZ < -entryZ then 1
    else if gate && predZ > entryZ then -1
    else 0
  }

  /** The position held before bar t (flat before the first bar). */
  function Prev(pos: seq<int>, t: nat): int
    requires t <= |pos|
  {
    if t == 0 then 0 else pos[t - 1]
  }

  /** Length of the run of non-zero positions at the end of `s`. */
  function TrailingRun(s: seq<int>): nat {
    if |s| == 0 || s[|s| - 1] == 0 then 0 else TrailingRun(s[..|s| - 1]) + 1
  }

  /** The time stop fires on bar t: the open position has been held `time_stop` bars before it. */
  predicate TimeUp(pos: seq<int>, t: nat, timeStop: int)
    requires t <= |pos|
  {
    timeStop > 0 && TrailingRun(pos[..t]) >= timeStop
  }

  /** The gated machine's rule for bar t. */
  predicate GatedRuleAt(bars: seq<Bar>, p: Params, pos: seq<int>, t: nat)
    requires t < |pos| && t < |bars|
  {
    var prev := Prev(pos, t);
    pos[t] == (if prev == 0 then Entry(bars[t].gate, bars[t].predZ, p.entryZ)
               else if ExitByZ(prev, bars[t].z, p.exitZ) || TimeUp(pos, t, p.timeStop) then 0
               else prev)
  }

  /** The whole output of the gated machine, bar by bar. */
  predicate GatedRule(bars: seq<Bar>, p: Params, pos: seq<int>) {
    |pos| == |bars| && forall t :: 0 <= t < |bars| ==> GatedRuleAt(bars, p, pos, t)
  }

  /**
   The position loop of `backtest`. Positions are in {-1, 0, +1}; a flat bar
   opens only through the gate; an open position either stays or goes flat,
   never flips; a long closes at z <= exit_z and a short at z >= exit_z.
   */
  method GatedPositions(bars: seq<Bar>, p: Params) returns (pos: seq<int>)
    ensures GatedRule(bars, p, pos)
    ensures forall t :: 0 <= t < |pos| ==> -1 <= pos[t] <= 1
    ensures forall t :: 0 <= t < |pos| && Prev(pos, t) == 0 ==>
      (pos[t] == 1 <==> bars[t].gate && bars[t].predZ < -p.entryZ)
      && (pos[t] == -1 <==> bars[t].gate && bars[t].predZ > p.entryZ && !(bars[t].predZ < -p.entryZ))
    ensures forall t :: 0 < t < |pos| && pos[t - 1] != 0 ==>
      (pos[t] == 0 || pos[t] == pos[t - 1])
      && (ExitByZ(pos[t - 1], bars[t].z, p.exitZ) ==> pos[t] == 0)
  {
    pos := [];
    var state := 0;
    var days := 0;
    for t := 0 to |bars|
      invariant |pos| == t
      invariant forall k :: 0 <= k < t ==> GatedRuleAt(bars, p, pos, k)
      invariant forall k :: 0 <= k < t ==> -1 <= pos[k] <= 1
      invariant state == Prev(pos, t)
      invariant state == 0 ==> days == 0
      invariant state != 0 ==> days + 1 == TrailingRun(pos)
    {
      assert pos[..t] == pos;
      if state == 0 {
        days := 0;
        if bars[t].gate {
          if bars[t].predZ < -p.entryZ {
            state := 1;
          } else if bars[t].predZ > p.entryZ {
            state := -1;
          }
        }
      } else {
        days := days + 1;
        var exitByZ := (state > 0 && bars[t].z <= p.exitZ) || (state < 0 && bars[t].z >= p.exitZ);
        var exitByTime := p.timeStop > 0 && days >= p.timeStop;
        if exitByZ || exitByTime {
          state, days := 0, 0;
        }
      }
      var next := pos + [state];
      GatedRuleExtends(bars, p, pos, state);
      assert next[..t] == pos;
      assert Prev(next, t) == Prev(pos, t);
      assert GatedRuleAt(bars, p, next, t);
      assert next[..|next| - 1] == pos;
      pos := next;
    }
    GatedRuleSteps(bars, p, pos);
  }

  /** Appending a bar keeps the rule on the earlier bars. */
  lemma GatedRuleExtends(bars: seq<Bar>, p: Params, pos: seq<int>, s: int)
    requires |pos| < |bars|
    requires forall k :: 0 <= k < |pos| ==> GatedRuleAt(bars, p, pos, k)
    ensures forall k :: 0 <= k < |pos| ==> GatedRuleAt(bars, p, pos + [s], k)
  {
    var next := pos + [s];
    forall k | 0 <= k < |pos|
      ensures GatedRuleAt(bars, p, next, k)
    {
      assert next[..k] == pos[..k];
      assert GatedRuleAt(bars, p, pos, k);
      assert next[k] == pos[k];
      assert Prev(next, k) == Prev(pos, k);
    }
  }

  /** What the gated rule says about consecutive bars. */
  lemma GatedRuleSteps(bars: seq<Bar>, p: Params, pos: seq<int>)
    requires GatedRule(bars, p, pos)
    ensures forall t :: 0 <= t < |pos| && Prev(pos, t) == 0 ==>
      (pos[t] == 1 <==> bars[t].gate && bars[t].predZ < -p.entryZ)
      && (pos[t] == -1 <==> bars[t].gate && bars[t].predZ > p.entryZ && !(bars[t].predZ < -p.entryZ))
    ensures forall t :: 0 < t < |pos| && pos[t - 1] != 0 ==>
      (pos[t] == 0 || pos[t] == pos[t - 1])
      && (ExitByZ(pos[t - 1], bars[t].z, p.exitZ) ==> pos[t] == 0)
  {
    forall t | 0 <= t < |pos|
      ensures Prev(pos, t) == 0 ==>
        (pos[t] == 1 <==> bars[t].gate && bars[t].predZ < -p.entryZ)
        && (pos[t] == -1 <==> bars[t].gate && bars[t].predZ > p.entryZ && !(bars[t].predZ < -p.entryZ))
      ensures t > 0 && pos[t - 1] != 0 ==>
        (pos[t] == 0 || pos[t] == pos[t - 1])
        && (ExitByZ(pos[t - 1], bars[t].z, p.exitZ) ==> pos[t] == 0)
    {
      assert GatedRuleAt(bars, p, pos, t);
    }
  }

  /** Two outputs obeying the gated rule agree on every prefix. */
  lemma {:induction false} GatedRulePrefix(bars: seq<Bar>, p: Params, a: seq<int>, b: seq<int>, k: nat)
    requires GatedRule(bars, p, a) && GatedRule(bars, p, b)
    requires k <= |bars|
    ensures a[..k] == b[..k]
  {
    if k > 0 {
      GatedRulePrefix(bars, p, a, b, k - 1);
      assert a[..k - 1] == b[..k - 1];
      assert GatedRuleAt(bars, p, a, k - 1) && GatedRuleAt(bars, p, b, k - 1);
      assert Prev(a, k - 1) == Prev(b, k - 1) by {
        if k - 1 > 0 {
          assert a[k - 2] == a[..k - 1][k - 2] && b[k - 2] == b[..k - 1][k - 2];
        }
      }
      assert a[k - 1] == b[k - 1];
      assert a[..k] == a[..k - 1] + [a[k - 1]];
      assert b[..k] == b[..k - 1] + [b[k - 1]];
    }
  }

  /** The gated rule determines the positions: the loop is its only solution. */
  lemma GatedRuleUnique(bars: seq<Bar>, p: Params, a: seq<int>, b: seq<int>)
    requires GatedRule(bars, p, a) && GatedRule(bars, p, b)
    ensures a == b
  {
    GatedRulePrefix(bars, p, a, b, |bars|);
    assert a == a[..|bars|] && b == b[..|bars|];
  }

  /**
   The gate is read only on flat bars: changing the gate on bars where a
   position is already open leaves every position unchanged, so a false
   gate never closes a trade.
   */
  lemma GateIgnoredWhileOpen(bars: seq<Bar>, bars2: seq<Bar>, p: Params, pos: seq<int>, pos2: seq<int>)
    requires GatedRule(bars, p, pos) && GatedRule(bars2, p, pos2)
    requires |bars2| == |bars|
    requires forall t :: 0 <= t < |bars| ==> bars2[t].predZ == bars[t].predZ && bars2[t].z == bars[t].z
    requires forall t :: 0 <= t < |bars| && Prev(pos, t) == 0 ==> bars2[t].gate == bars[t].gate
    ensures pos2 == pos
  {
    assert GatedRule(bars2, p, pos) by {
      forall t | 0 <= t < |bars|
        ensures GatedRuleAt(bars2, p, pos, t)
      {
        assert GatedRuleAt(bars, p, pos, t);
      }
    }
    GatedRuleUnique(bars2, p, pos, pos2);
  }

  /** Under the gated rule every run of non-zero positions is at most `time_stop` bars long. */
  lemma {:induction false} TimeStopBound(bars: seq<Bar>, p: Params, pos: seq<int>, t: nat)
    requires GatedRule(bars, p, pos)
    requires p.timeStop > 0 && t <= |pos|
    ensures TrailingRun(pos[..t]) <= p.timeStop
  {
    if t > 0 {
      TimeStopBound(bars, p, pos, t - 1);
      assert pos[..t][..t - 1] == pos[..t - 1];
      assert GatedRuleAt(bars, p, pos, t - 1);
      if t - 1 > 0 {
        assert pos[t - 2] == pos[..t - 1][t - 2];
      }
    }
  }

  /** A position opened on bar e and not yet closed by z is closed on bar e + time_stop. */
  lemma TimeStopCloses(bars: seq<Bar>, p: Params, pos: seq<int>, e: nat)
    requires GatedRule(bars, p, pos)
    requires p.timeStop > 0 && e + p.timeStop < |pos|
    requires Prev(pos, e) == 0 && pos[e] != 0
    ensures exists t :: e < t <= e + p.timeStop && pos[t] == 0
  {
    if forall t :: e < t <= e + p.timeStop ==> pos[t] != 0 {
      var t := e + p.timeStop;
      assert pos[..t + 1][..t] == pos[..t];
      TrailingRunFrom(pos, e, t);
      TimeStopBound(bars, p, pos, t + 1);
      assert false;
    }
  }

  /** A run of non-zero positions over [e, t) starting after a flat bar has length t - e. */
  lemma {:induction false} TrailingRunFrom(pos: seq<int>, e: nat, t: nat)
    requires e < t <= |pos|
    requires forall k :: e <= k < t ==> pos[k] != 0
    requires Prev(pos, e) == 0
    ensures TrailingRun(pos[..t]) == t - e
    decreases t - e
  {
    assert pos[..t][..t - 1] == pos[..t - 1];
    if t - 1 > e {
      TrailingRunFrom(pos, e, t - 1);
    } else if e > 0 {
      assert pos[..e][e - 1] == pos[e - 1];
    }
  }

  // ---------------------------------------------------------------------------
  // The simple machine of pairs_ml.py

  /** The simple machine's rule for bar t: no gate, no time stop. */
  predicate SimpleRuleAt(predZ: seq<real>, z: seq<real>, entryZ: real, exitZ: real, pos: seq<int>, t: nat)
    requires t < |pos| && t < |predZ| && t < |z|
  {
    var prev := Prev(pos, t);
    pos[t] == (if prev == 0 then (if predZ[t] < -entryZ then 1 else if predZ[t] > entryZ then -1 else 0)
               else if ExitByZ(prev, z[t], exitZ) then 0
               else prev)
  }

  predicate SimpleRule(predZ: seq<real>, z: seq<real>, entryZ: real, exitZ: real, pos: seq<int>) {
    |pos| == |predZ| == |z| && forall t :: 0 <= t < |pos| ==> SimpleRuleAt(predZ, z, entryZ, exitZ, pos, t)
  }

  /**
   The position loop of `backtest_strategy`: positions in {-1, 0, +1}, opened
   from flat by pred_z alone, closed by z alone, never flipped.
   */
  method SimplePositions(predZ: seq<real>, z: seq<real>, entryZ: real, exitZ: real) returns (pos: seq<int>)
    requires |z| == |predZ|
    ensures SimpleRule(predZ, z, entryZ, exitZ, pos)
    ensures forall t :: 0 <= t < |pos| ==> -1 <= pos[t] <= 1
    ensures forall t :: 0 < t < |pos| && pos[t - 1] != 0 ==>
      (pos[t] == 0 <==> ExitByZ(pos[t - 1], z[t], exitZ)) && (pos[t] != 0 ==> pos[t] == pos[t - 1])
  {
    pos := [];
    var state := 0;
    for t := 0 to |predZ|
      invariant |pos| == t
      invariant forall k :: 0 <= k < t ==> SimpleRuleAt(predZ, z, entryZ, exitZ, pos, k)
      invariant forall k :: 0 <= k < t ==> -1 <= pos[k] <= 1
      invariant state == Prev(pos, t)
    {
      if state == 0 {
        if predZ[t] < -entryZ {
          state := 1;
        } else if predZ[t] > entryZ {
          state := -1;
        }
      } else {
        if (state > 0 && z[t] <= exitZ) || (state < 0 && z[t] >= exitZ) {
          state := 0;
        }
      }
      var next := pos + [state];
      forall k | 0 <= k < t
        ensures SimpleRuleAt(predZ, z, entryZ, exitZ, next, k)
      {
        assert SimpleRuleAt(predZ, z, entryZ, exitZ, pos, k);
        assert next[k] == pos[k];
        assert Prev(next, k) == Prev(pos, k);
      }
      assert Prev(next, t) == Prev(pos, t);
      assert SimpleRuleAt(predZ, z, entryZ, exitZ, next, t);
      pos := next;
    }
    forall t | 0 < t < |pos| && pos[t - 1] != 0
      ensures (pos[t] == 0 <==> ExitByZ(pos[t - 1], z[t], exitZ)) && (pos[t] != 0 ==> pos[t] == pos[t - 1])
    {
      assert SimpleRuleAt(predZ, z, entryZ, exitZ, pos, t);
    }
  }

  /** Bars with the gate always on. */
  function Ungated(predZ: seq<real>, z: seq<real>): (r: seq<Bar>)
    requires |z| == |predZ|
    ensures |r| == |predZ|
  {
    seq(|predZ|, t requires 0 <= t < |predZ| => Bar(true, predZ[t], z[t]))
  }

  /** The simple machine is the gated machine with the gate always on and the time stop off. */
  lemma SimpleIsUngatedWithoutStop(predZ: seq<real>, z: seq<real>, entryZ: real, exitZ: real, pos: seq<int>)
    requires |z| == |predZ|
    ensures SimpleRule(predZ, z, entryZ, exitZ, pos) <==> GatedRule(Ungated(predZ, z), Params(entryZ, exitZ, 0), pos)
  {
    var bars := Ungated(predZ, z);
    var p := Params(entryZ, exitZ, 0);
    if |pos| == |predZ| {
      forall t | 0 <= t < |pos|
        ensures SimpleRuleAt(predZ, z, entryZ, exitZ, pos, t) <==> GatedRuleAt(bars, p, pos, t)
      {
      }
    }
  }
}
