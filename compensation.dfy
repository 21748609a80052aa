/**
 * compensate_extrude and compensate_travel: the leak estimate of a finished
 * extrude block and the rewrite that takes the leaked volume off the tail of the
 * block, walking its commands backwards and splitting the command where the
 * budget runs out.
 *
 * Python's math.sqrt is not modelled: it is the parameter sqrt.
 */
module Compensation {
  import opened Wrappers
  import opened Commands

  /** C, the tuning constant of the leak adjustment. */
  const LeakCoefficient: real := 0.001

  /** sqrt behaves as the square root on the non-negative reals. */
  ghost predicate IsSqrt(sqrt: real -> real) {
    forall x :: 0.0 <= x ==> 0.0 <= sqrt(x) && sqrt(x) * sqrt(x) == x
  }

  /**
   * The leaked volume V_leak of a block of length dist at the given feedrate and
   * maximum acceleration, or the exception the source raises: division by a zero
   * acceleration, the square root of a negative number, and, when the feedrate is
   * reached, the undefined name 'speed'.
   */
  function LeakEstimate(sqrt: real -> real, dist: real, feedrate: real, accel: real): Result<real, Crash> {
    if accel == 0.0 then Err(ZeroDivisionError)
    else if dist / accel < 0.0 then Err(ValueError)
    else if feedrate / accel < sqrt(dist / accel) then Err(NameError("speed"))
    else if dist * accel < 0.0 then Err(ValueError)
    else
      var maxSpeed := sqrt(dist * accel);
      var accelFrac := 1.0;
      var avgSpeed := (maxSpeed / 2.0) * accelFrac + maxSpeed * (1.0 - accelFrac);
      Ok(LeakCoefficient * avgSpeed)
  }

  lemma SquaresOrdered(u: real, s: real)
    requires 0.0 <= u && 0.0 <= s
    ensures u < s <==> u * u < s * s
  {
    assert s * s - u * u == (s - u) * (s + u);
    if u < s {
      assert 0.0 < s - u && 0.0 < s + u;
      assert 0.0 < (s - u) * (s + u);
    } else {
      assert 0.0 <= u - s && 0.0 <= u + s;
      assert 0.0 <= (u - s) * (u + s);
    }
  }

  /** For a positive acceleration, feedrate/accel >= s with s*s == dist/accel is feedrate^2 >= dist*accel. */
  lemma NotReachedCriterion(dist: real, feedrate: real, accel: real, s: real)
    requires 0.0 < accel && 0.0 <= dist
    requires 0.0 <= s && s * s == dist / accel
    ensures !(feedrate / accel < s) <==> 0.0 <= feedrate && dist * accel <= feedrate * feedrate
  {
    var u := feedrate / accel;
    assert u * accel == feedrate;
    assert (dist / accel) * accel == dist;
    assert u * u * (accel * accel) == feedrate * feedrate;
    assert s * s * (accel * accel) == dist * accel;
    if 0.0 <= feedrate {
      assert 0.0 <= u;
      SquaresOrdered(u, s);
      if u * u < s * s {
        assert u * u * (accel * accel) < s * s * (accel * accel);
      } else {
        assert u * u * (accel * accel) >= s * s * (accel * accel);
      }
    } else {
      assert u < 0.0;
    }
  }

  /** In the branch that does not reach the feedrate, the leak is C times half the peak speed. */
  lemma EstimateWhenNotReached(sqrt: real -> real, dist: real, feedrate: real, accel: real)
    requires accel != 0.0 && 0.0 <= dist / accel && 0.0 <= dist * accel
    requires !(feedrate / accel < sqrt(dist / accel))
    ensures LeakEstimate(sqrt, dist, feedrate, accel) == Ok(LeakCoefficient * (sqrt(dist * accel) / 2.0))
  {
  }

  /**
   * Before any M204 the acceleration is 0 and the estimate divides by zero; with a
   * negative acceleration a positive length has no square root; with a positive
   * one the estimate exists exactly when the feedrate is NOT reached
   * (dist*accel <= feedrate^2), and is then between 0 and C*feedrate/2: the peak
   * speed sqrt(dist*accel) halved, times C.
   */
  lemma {:induction false} LeakEstimateOutcome(sqrt: real -> real, dist: real, feedrate: real, accel: real)
    requires IsSqrt(sqrt)
    ensures accel == 0.0 ==> LeakEstimate(sqrt, dist, feedrate, accel) == Err(ZeroDivisionError)
    ensures accel < 0.0 && 0.0 < dist ==> LeakEstimate(sqrt, dist, feedrate, accel) == Err(ValueError)
    ensures 0.0 < accel && 0.0 <= dist ==>
              (LeakEstimate(sqrt, dist, feedrate, accel).Ok? <==> 0.0 <= feedrate && dist * accel <= feedrate * feedrate)
    ensures 0.0 < accel && 0.0 <= dist && LeakEstimate(sqrt, dist, feedrate, accel).Err? ==>
              LeakEstimate(sqrt, dist, feedrate, accel) == Err(NameError("speed"))
    ensures 0.0 < accel && 0.0 <= dist && LeakEstimate(sqrt, dist, feedrate, accel).Ok? ==>
              var v := LeakEstimate(sqrt, dist, feedrate, accel).value;
              && 0.0 <= v <= LeakCoefficient * feedrate / 2.0
              && v == LeakCoefficient * sqrt(dist * accel) / 2.0
              && (0.0 < dist ==> 0.0 < v)
  {
    if accel < 0.0 && 0.0 < dist {
      assert (dist / accel) * accel == dist;
    }
    if 0.0 < accel && 0.0 <= dist {
      var s := sqrt(dist / accel);
      assert (dist / accel) * accel == dist;
      assert 0.0 <= dist / accel;
      NotReachedCriterion(dist, feedrate, accel, s);
      if 0.0 <= feedrate && dist * accel <= feedrate * feedrate {
        var m := sqrt(dist * accel);
        assert 0.0 <= m && m * m == dist * accel;
        SquaresOrdered(feedrate, m);
        assert m <= feedrate;
        assert !(feedrate / accel < sqrt(dist / accel));
        assert !(dist * accel < 0.0);
        EstimateWhenNotReached(sqrt, dist, feedrate, accel);
        assert LeakCoefficient * (m / 2.0) <= LeakCoefficient * (feedrate / 2.0);
        if 0.0 < dist {
          assert 0.0 < dist * accel;
          assert m != 0.0;
        }
      }
    }
  }

  /** Every command of the block has X, Y and E, as the buffered extrude commands do. */
  predicate Extrudable(cmds: seq<Cmd>) {
    forall i :: 0 <= i < |cmds| ==> 'X' in cmds[i].fields && 'Y' in cmds[i].fields && 'E' in cmds[i].fields
  }

  /** cmd.pop('E') */
  function DropE(c: Cmd): Cmd {
    c.(fields := c.fields - {'E'})
  }

  function DropAllE(cmds: seq<Cmd>): (r: seq<Cmd>)
    ensures |r| == |cmds| && forall i :: 0 <= i < |cmds| ==> r[i] == DropE(cmds[i])
  {
    seq(|cmds|, i requires 0 <= i < |cmds| => DropE(cmds[i]))
  }

  /** The E value before command i: that of command i-1, and 0 before the first. */
  function PrevE(cmds: seq<Cmd>, i: int): real
    requires Extrudable(cmds) && 0 <= i < |cmds|
  {
    if i == 0 then 0.0 else E(cmds[i - 1])
  }

  /** e_delta: what command i extrudes, E[i] - E[i-1], or E[0] for the first command. */
  function Delta(cmds: seq<Cmd>, i: int): real
    requires Extrudable(cmds) && 0 <= i < |cmds|
  {
    if i == 0 then E(cmds[0]) else E(cmds[i]) - E(cmds[i - 1])
  }

  /** What is left of the leak budget v when the backward walk reaches command i. */
  function Budget(cmds: seq<Cmd>, v: real, i: int): real
    requires Extrudable(cmds) && 0 <= i < |cmds|
    decreases |cmds| - i
  {
    if i == |cmds| - 1 then v else Budget(cmds, v, i + 1) - Delta(cmds, i + 1)
  }

  /** The walk takes the whole of command i's extrusion: the budget is strictly larger. */
  predicate Pops(cmds: seq<Cmd>, v: real, i: int)
    requires Extrudable(cmds) && 0 <= i < |cmds|
  {
    Budget(cmds, v, i) > Delta(cmds, i)
  }

  /** Where the walk down from command i stops and splits, if it does. */
  function SplitIndex(cmds: seq<Cmd>, v: real, i: int): (r: Option<nat>)
    requires Extrudable(cmds) && 0 <= i < |cmds|
    ensures r.Some? ==> r.value <= i && !Pops(cmds, v, r.value) &&
                        forall j :: r.value < j <= i ==> Pops(cmds, v, j)
    ensures r.None? ==> forall j :: 0 <= j <= i ==> Pops(cmds, v, j)
    decreases i
  {
    if !Pops(cmds, v, i) then Some(i)
    else if i == 0 then None
    else SplitIndex(cmds, v, i - 1)
  }

  function Interpolate(from: Point, to: Point, frac: real): Point {
    Point(from.x + frac * (to.x - from.x), from.y + frac * (to.y - from.y))
  }

  /** The command moved to end at p with its E set to e. */
  function Shorten(c: Cmd, p: Point, e: real): Cmd {
    c.(fields := c.fields['E' := e]['X' := p.x]['Y' := p.y])
  }

  /**
   * The block after removing the leaked volume v (lines 96-133): a single command
   * loses v from its E, or its E if v reaches e_dist; otherwise every command
   * after the split index loses its E, the command at the split index is
   * shortened to the interpolated point with v's remainder taken off its E, and a
   * G1 to its old end point follows it.  At the first command the "previous"
   * point is cmd_list[-1], the LAST command of the block.
   */
  function Rewrite(cmds: seq<Cmd>, eDist: real, v: real): Result<seq<Cmd>, Crash>
    requires Extrudable(cmds)
  {
    if |cmds| == 1 then
      if v < eDist then Ok([cmds[0].(fields := cmds[0].fields['E' := E(cmds[0]) - v])])
      else Ok([DropE(cmds[0])])
    else if |cmds| == 0 then Ok([])
    else Walk(cmds, v)
  }

  /** The backward walk over a block of two or more commands. */
  function Walk(cmds: seq<Cmd>, v: real): Result<seq<Cmd>, Crash>
    requires Extrudable(cmds) && |cmds| >= 2
  {
    match SplitIndex(cmds, v, |cmds| - 1)
    case None => Ok(DropAllE(cmds))
    case Some(k) => SplitAtIndex(cmds, v, k)
  }

  /** The walk stopping at command k: the earlier commands are kept, k is split, the later ones lose E. */
  function SplitAtIndex(cmds: seq<Cmd>, v: real, k: nat): Result<seq<Cmd>, Crash>
    requires Extrudable(cmds) && |cmds| >= 2 && k < |cmds|
  {
    var budget := Budget(cmds, v, k);
    var delta := Delta(cmds, k);
    if delta == 0.0 then Err(ZeroDivisionError)
    else
      var prev := if k == 0 then cmds[|cmds| - 1] else cmds[k - 1];
      var mid := Interpolate(PointOf(prev), PointOf(cmds[k]), 1.0 - budget / delta);
      Ok(cmds[..k] + [Shorten(cmds[k], mid, E(cmds[k]) - budget), TravelTo(PointOf(cmds[k]))]
         + DropAllE(cmds[k + 1..]))
  }

  /** compensate_extrude as a function: an empty block is left alone, otherwise estimate, then rewrite. */
  function Compensated(sqrt: real -> real, cmds: seq<Cmd>, dist: real, eDist: real, feedrate: real, accel: real)
    : Result<seq<Cmd>, Crash>
    requires Extrudable(cmds)
  {
    if |cmds| == 0 then Ok(cmds)
    else
      match LeakEstimate(sqrt, dist, feedrate, accel)
      case Err(e) => Err(e)
      case Ok(v) => Rewrite(cmds, eDist, v)
  }

  /** compensate_travel: the identity, an extension point for purging on travel. */
  function CompensateTravel(cmds: seq<Cmd>, dist: real): (r: seq<Cmd>)
    ensures r == cmds
  {
    cmds
  }

  /** The budget at command i is v less everything the commands after i extrude. */
  lemma {:induction false} BudgetClosedForm(cmds: seq<Cmd>, v: real, i: int)
    requires Extrudable(cmds) && 0 <= i < |cmds|
    ensures Budget(cmds, v, i) == v - (E(cmds[|cmds| - 1]) - E(cmds[i]))
    decreases |cmds| - i
  {
    if i < |cmds| - 1 {
      BudgetClosedForm(cmds, v, i + 1);
    }
  }

  /**
   * The pop test at command i (line 112, once the walk has reached i) holds
   * exactly when v exceeds what the block extrudes from i-1 on.  Whether the
   * walk reaches i at all is SplitIndexClosedForm's concern.
   */
  lemma PopsClosedForm(cmds: seq<Cmd>, v: real, i: int)
    requires Extrudable(cmds) && 0 <= i < |cmds|
    ensures Pops(cmds, v, i) <==> E(cmds[|cmds| - 1]) - PrevE(cmds, i) < v
  {
    BudgetClosedForm(cmds, v, i);
  }

  /**
   * A block of two or more commands loses every E field, and keeps its length,
   * exactly when v exceeds what the block extrudes after each of its commands'
   * predecessors (for the first command: the whole extrusion E[last]).
   */
  lemma RemovesAllExtrusion(cmds: seq<Cmd>, eDist: real, v: real)
    requires Extrudable(cmds) && |cmds| >= 2
    ensures Rewrite(cmds, eDist, v) == Ok(DropAllE(cmds)) <==>
              forall j :: 0 <= j < |cmds| ==> E(cmds[|cmds| - 1]) - PrevE(cmds, j) < v
    ensures Rewrite(cmds, eDist, v) == Ok(DropAllE(cmds)) ==> E(cmds[|cmds| - 1]) < v
  {
    var n := |cmds|;
    forall j | 0 <= j < n
      ensures Pops(cmds, v, j) <==> E(cmds[n - 1]) - PrevE(cmds, j) < v
    {
      PopsClosedForm(cmds, v, j);
    }
    assert PrevE(cmds, 0) == 0.0;
    var s := SplitIndex(cmds, v, n - 1);
    if s.Some? {
      var r := Rewrite(cmds, eDist, v);
      assert r.Ok? ==> |r.value| == n + 1;
    }
  }

  /** One command: X, Y, F and the tag stay; E drops by v if v < e_dist, and is removed otherwise. */
  lemma SingleCommand(cmds: seq<Cmd>, eDist: real, v: real)
    requires Extrudable(cmds) && |cmds| == 1
    ensures Rewrite(cmds, eDist, v).Ok? && |Rewrite(cmds, eDist, v).value| == 1
    ensures var c := Rewrite(cmds, eDist, v).value[0];
            && c.tag == cmds[0].tag
            && c.fields - {'E'} == cmds[0].fields - {'E'}
            && ('E' in c.fields <==> v < eDist)
            && (v < eDist ==> E(c) == E(cmds[0]) - v)
  {
  }

  /**
   * The split: one more command; the commands before the split index are
   * untouched; the split command keeps its other fields, ends at the point the
   * fraction 1 - budget/delta of the way from the previous point (the block's
   * last point when k == 0) and extrudes up to E[last] - v, so that exactly v is
   * removed; a G1 without E then reaches the original end point; every later
   * command has lost its E.
   */
  lemma {:induction false} SplitShape(cmds: seq<Cmd>, eDist: real, v: real, k: nat)
    requires Extrudable(cmds) && |cmds| >= 2
    requires SplitIndex(cmds, v, |cmds| - 1) == Some(k)
    requires Delta(cmds, k) != 0.0
    ensures Rewrite(cmds, eDist, v).Ok?
    ensures var r := Rewrite(cmds, eDist, v).value;
            var prev := if k == 0 then cmds[|cmds| - 1] else cmds[k - 1];
            && |r| == |cmds| + 1
            && r[..k] == cmds[..k]
            && r[k].tag == cmds[k].tag
            && r[k].fields.Keys == cmds[k].fields.Keys
            && (forall key :: key in cmds[k].fields && key != 'X' && key != 'Y' && key != 'E' ==>
                  r[k].fields[key] == cmds[k].fields[key])
            && PointOf(r[k]) == Interpolate(PointOf(prev), PointOf(cmds[k]),
                                            1.0 - Budget(cmds, v, k) / Delta(cmds, k))
            && E(r[k]) == E(cmds[|cmds| - 1]) - v
            && r[k + 1] == TravelTo(PointOf(cmds[k]))
            && r[k + 2..] == DropAllE(cmds[k + 1..])
  {
    assert Rewrite(cmds, eDist, v) == Walk(cmds, v) == SplitAtIndex(cmds, v, k);
    SplitAtIndexShape(cmds, v, k);
  }

  lemma SplitAtIndexShape(cmds: seq<Cmd>, v: real, k: nat)
    requires Extrudable(cmds) && |cmds| >= 2 && k < |cmds|
    requires Delta(cmds, k) != 0.0
    ensures SplitAtIndex(cmds, v, k).Ok?
    ensures var r := SplitAtIndex(cmds, v, k).value;
            var prev := if k == 0 then cmds[|cmds| - 1] else cmds[k - 1];
            && |r| == |cmds| + 1
            && r[..k] == cmds[..k]
            && r[k].tag == cmds[k].tag
            && r[k].fields.Keys == cmds[k].fields.Keys
            && (forall key :: key in cmds[k].fields && key != 'X' && key != 'Y' && key != 'E' ==>
                  r[k].fields[key] == cmds[k].fields[key])
            && PointOf(r[k]) == Interpolate(PointOf(prev), PointOf(cmds[k]),
                                            1.0 - Budget(cmds, v, k) / Delta(cmds, k))
            && E(r[k]) == E(cmds[|cmds| - 1]) - v
            && r[k + 1] == TravelTo(PointOf(cmds[k]))
            && r[k + 2..] == DropAllE(cmds[k + 1..])
  {
    var n := |cmds|;
    BudgetClosedForm(cmds, v, k);
    var b := Budget(cmds, v, k);
    var d := Delta(cmds, k);
    var prev := if k == 0 then cmds[n - 1] else cmds[k - 1];
    var mid := Interpolate(PointOf(prev), PointOf(cmds[k]), 1.0 - b / d);
    var shortened := Shorten(cmds[k], mid, E(cmds[k]) - b);
    var r := cmds[..k] + [shortened, TravelTo(PointOf(cmds[k]))] + DropAllE(cmds[k + 1..]);
    assert SplitAtIndex(cmds, v, k) == Ok(r);
    assert r[k] == shortened && r[k + 1] == TravelTo(PointOf(cmds[k]));
    assert r[..k] == cmds[..k];
    assert r[k + 2..] == DropAllE(cmds[k + 1..]);
    assert shortened.fields['X'] == mid.x && shortened.fields['Y'] == mid.y;
    assert PointOf(shortened) == mid;
    assert shortened.fields['E'] == E(cmds[k]) - b;
    assert E(shortened) == E(cmds[n - 1]) - v;
  }

  /** The split index in closed form: the last command whose predecessor's E is within v of E[last]. */
  lemma SplitIndexClosedForm(cmds: seq<Cmd>, v: real, k: nat)
    requires Extrudable(cmds) && k < |cmds|
    ensures SplitIndex(cmds, v, |cmds| - 1) == Some(k) <==>
              && v <= E(cmds[|cmds| - 1]) - PrevE(cmds, k)
              && forall j :: k < j < |cmds| ==> E(cmds[|cmds| - 1]) - PrevE(cmds, j) < v
  {
    forall j | 0 <= j < |cmds|
      ensures Pops(cmds, v, j) <==> E(cmds[|cmds| - 1]) - PrevE(cmds, j) < v
    {
      PopsClosedForm(cmds, v, j);
    }
  }

  /**
   * For a non-negative leak the split point lies on the segment (a fraction in
   * [0, 1]) and the split command still extrudes between nothing and its
   * original delta: no segment ends up with negative extrusion.
   */
  lemma {:induction false} SplitStaysOnSegment(cmds: seq<Cmd>, eDist: real, v: real, k: nat)
    requires Extrudable(cmds) && |cmds| >= 2 && 0.0 <= v
    requires SplitIndex(cmds, v, |cmds| - 1) == Some(k)
    requires Delta(cmds, k) != 0.0
    ensures 0.0 < Delta(cmds, k)
    ensures 0.0 <= 1.0 - Budget(cmds, v, k) / Delta(cmds, k) <= 1.0
    ensures Rewrite(cmds, eDist, v).Ok?
    ensures PrevE(cmds, k) <= E(Rewrite(cmds, eDist, v).value[k]) <= E(cmds[k])
  {
    var n := |cmds|;
    var b := Budget(cmds, v, k);
    var d := Delta(cmds, k);
    if k < n - 1 {
      assert Pops(cmds, v, k + 1);
    }
    assert 0.0 <= b <= d;
    FractionInUnit(b, d);
    SplitShape(cmds, eDist, v, k);
    BudgetClosedForm(cmds, v, k);
  }

  lemma FractionInUnit(b: real, d: real)
    requires 0.0 <= b <= d && 0.0 < d
    ensures 0.0 <= b / d <= 1.0
  {
    var q := b / d;
    assert q * d == b;
    assert (1.0 - q) * d == d - b;
  }

  /** A positive leak budget never reaches the 0/0 division of line 117. */
  lemma {:induction false} PositiveLeakNeverDividesByZero(cmds: seq<Cmd>, eDist: real, v: real)
    requires Extrudable(cmds) && 0.0 < v
    ensures Rewrite(cmds, eDist, v).Ok?
  {
    if |cmds| >= 2 {
      var s := SplitIndex(cmds, v, |cmds| - 1);
      if s.Some? {
        var k := s.value;
        if k < |cmds| - 1 {
          assert Pops(cmds, v, k + 1);
        }
        assert 0.0 < Budget(cmds, v, k) <= Delta(cmds, k);
      }
    }
  }

  /**
   * With a true square root, a positive acceleration and a positive block length,
   * compensating a block fails only by the NameError of the reached-feedrate
   * branch, and otherwise takes a positive volume off the block.
   */
  lemma CompensatedOutcome(sqrt: real -> real, cmds: seq<Cmd>, dist: real, eDist: real, feedrate: real, accel: real)
    requires IsSqrt(sqrt) && Extrudable(cmds) && |cmds| > 0
    requires 0.0 < accel && 0.0 < dist
    ensures Compensated(sqrt, cmds, dist, eDist, feedrate, accel).Err? ==>
              Compensated(sqrt, cmds, dist, eDist, feedrate, accel) == Err(NameError("speed"))
    ensures Compensated(sqrt, cmds, dist, eDist, feedrate, accel).Ok? <==>
              0.0 <= feedrate && dist * accel <= feedrate * feedrate
  {
    LeakEstimateOutcome(sqrt, dist, feedrate, accel);
    var est := LeakEstimate(sqrt, dist, feedrate, accel);
    if est.Ok? {
      PositiveLeakNeverDividesByZero(cmds, eDist, est.value);
    }
  }

  /** Once every command after i has popped and i does not, the walk splits at i. */
  lemma SplitsAt(cmds: seq<Cmd>, v: real, i: nat)
    requires Extrudable(cmds) && |cmds| >= 2 && i < |cmds|
    requires forall j :: i < j < |cmds| ==> Pops(cmds, v, j)
    requires !Pops(cmds, v, i)
    ensures Walk(cmds, v) == SplitAtIndex(cmds, v, i)
  {
    SplitIndexFinds(cmds, v, i, |cmds| - 1);
  }

  /** Walking down from m, the first command that does not pop is where the walk splits. */
  lemma {:induction false} SplitIndexFinds(cmds: seq<Cmd>, v: real, i: int, m: int)
    requires Extrudable(cmds) && 0 <= i <= m < |cmds|
    requires forall j :: i < j <= m ==> Pops(cmds, v, j)
    requires !Pops(cmds, v, i)
    ensures SplitIndex(cmds, v, m) == Some(i)
    decreases m
  {
    if m > i {
      assert Pops(cmds, v, m);
      SplitIndexFinds(cmds, v, i, m - 1);
    }
  }

  /** When every command pops, the walk removes every E. */
  lemma PopsAll(cmds: seq<Cmd>, v: real)
    requires Extrudable(cmds) && |cmds| >= 2
    requires forall j :: 0 <= j < |cmds| ==> Pops(cmds, v, j)
    ensures Walk(cmds, v) == Ok(DropAllE(cmds))
  {
    assert SplitIndex(cmds, v, |cmds| - 1) == None;
  }

  /** Lines 96-133: a single command loses the leak from its E, a longer block is walked backwards. */
  method RemoveLeak(cmdList: seq<Cmd>, eDist: real, leak: real) returns (r: Result<seq<Cmd>, Crash>)
    requires Extrudable(cmdList)
    ensures r == Rewrite(cmdList, eDist, leak)
  {
    if |cmdList| == 1 {
      if leak < eDist {
        r := Ok([cmdList[0].(fields := cmdList[0].fields['E' := E(cmdList[0]) - leak])]);
      } else {
        r := Ok([DropE(cmdList[0])]);
      }
    } else if |cmdList| == 0 {
      r := Ok(cmdList);
    } else {
      r := WalkBack(cmdList, leak);
    }
  }

  /**
   * Lines 104-131: from the last command backwards, pop each E the budget
   * exceeds; at the first one it does not, split that command and stop.
   */
  method WalkBack(cmdList: seq<Cmd>, leak: real) returns (r: Result<seq<Cmd>, Crash>)
    requires Extrudable(cmdList) && |cmdList| >= 2
    ensures r == Walk(cmdList, leak)
  {
    var list := cmdList;
    var n := |list|;
    var vLeak := leak;
    var i := n - 1;
    while i >= 0
      invariant -1 <= i < n && |list| == n
      invariant forall j :: 0 <= j <= i ==> list[j] == cmdList[j]
      invariant forall j :: i < j < n ==> list[j] == DropE(cmdList[j])
      invariant 0 <= i ==> vLeak == Budget(cmdList, leak, i)
      invariant forall j :: i < j < n ==> Pops(cmdList, leak, j)
    {
      var eDelta := if i == 0 then list[i].fields['E'] else list[i].fields['E'] - list[i - 1].fields['E'];
      assert eDelta == Delta(cmdList, i);
      if vLeak > eDelta {
        list := list[i := DropE(list[i])];
        vLeak := vLeak - eDelta;
      } else {
        SplitsAt(cmdList, leak, i);
        r := SplitSegment(cmdList, leak, list, i, vLeak);
        return;
      }
      i := i - 1;
    }
    assert list == DropAllE(cmdList);
    PopsAll(cmdList, leak);
    r := Ok(list);
  }

  /**
   * Lines 115-131: the command at i, where the walk stops, is shortened to the
   * point the fraction 1 - vLeak/e_delta of the way along its segment, and a G1
   * to its old end point is inserted after it.
   */
  method SplitSegment(cmdList: seq<Cmd>, leak: real, list: seq<Cmd>, i: nat, vLeak: real)
    returns (r: Result<seq<Cmd>, Crash>)
    requires Extrudable(cmdList) && |cmdList| >= 2 && i < |cmdList| && |list| == |cmdList|
    requires forall j :: 0 <= j <= i ==> list[j] == cmdList[j]
    requires forall j :: i < j < |cmdList| ==> list[j] == DropE(cmdList[j])
    requires vLeak == Budget(cmdList, leak, i)
    ensures r == SplitAtIndex(cmdList, leak, i)
  {
    var n := |list|;
    var eDelta := if i == 0 then list[i].fields['E'] else list[i].fields['E'] - list[i - 1].fields['E'];
    assert eDelta == Delta(cmdList, i);
    if eDelta == 0.0 {
      return Err(ZeroDivisionError);
    }
    var extrudeFrac := 1.0 - vLeak / eDelta;
    // cmd_list[i-1] is Python's cmd_list[-1], the last command, when i == 0
    var prev := if i == 0 then list[n - 1] else list[i - 1];
    assert PointOf(prev) == PointOf(if i == 0 then cmdList[n - 1] else cmdList[i - 1]);
    var mid := Interpolate(PointOf(prev), PointOf(list[i]), extrudeFrac);
    assert list[..i] == cmdList[..i];
    assert list[i + 1..] == DropAllE(cmdList[i + 1..]);
    r := Ok(list[..i] + [Shorten(list[i], mid, E(list[i]) - vLeak), TravelTo(PointOf(list[i]))] + list[i + 1..]);
  }

  /** compensate_extrude: skip an empty block, estimate the leak, then remove it. */
  method CompensateExtrude(sqrt: real -> real, cmdList: seq<Cmd>, dist: real, eDist: real, feedrate: real, accel: real)
    returns (r: Result<seq<Cmd>, Crash>)
    requires Extrudable(cmdList)
    ensures r == Compensated(sqrt, cmdList, dist, eDist, feedrate, accel)
  {
    if |cmdList| == 0 {
      return Ok(cmdList);
    }
    var vLeak := LeakEstimate(sqrt, dist, feedrate, accel);
    if vLeak.Err? {
      return Err(vLeak.error);
    }
    r := RemoveLeak(cmdList, eDist, vLeak.value);
  }
}
