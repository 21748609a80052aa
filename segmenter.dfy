/**
 * The body of main: the state machine that groups consecutive extrude or travel
 * commands into blocks, compensates an extrude block when it closes, writes a
 * travel block unchanged, and passes every other valid command through on its
 * own.  The input file is a sequence of lines; the output file is the sequence
 * of commands handed to cmd_to_file, in order.
 */
module Segmenter {
  import opened Wrappers
  import opened Commands
  import opened Parser
  import opened Compensation

  /** The variables main keeps across lines (extrude_dist is set only right before its one use). */
  datatype State = State(
    inExtrudeBlock: bool,
    inTravelBlock: bool,
    cmdList: seq<Cmd>,
    cartesianDist: real,
    feedrate: real,
    accelMax: real,
    lastPt: Point)

  const Origin: Point := Point(0.0, 0.0)

  const Start: State := State(false, false, [], 0.0, 0.0, 0.0, Origin)

  /** What a run writes, and the exception that ended it early, if any. */
  datatype Transcript = Transcript(out: seq<Cmd>, crash: Option<Crash>)

  /** What one line writes, and the next state or the exception it raises. */
  datatype StepResult = StepResult(out: seq<Cmd>, next: Result<State, Crash>)

  function Prepend(out: seq<Cmd>, t: Transcript): Transcript {
    Transcript(out + t.out, t.crash)
  }

  /** The Euclidean distance from p to q, taken with the given square root. */
  function Dist(sqrt: real -> real, p: Point, q: Point): real {
    sqrt((q.x - p.x) * (q.x - p.x) + (q.y - p.y) * (q.y - p.y))
  }

  predicate HasPoints(cmds: seq<Cmd>) {
    forall i :: 0 <= i < |cmds| ==> 'X' in cmds[i].fields && 'Y' in cmds[i].fields
  }

  function Points(cmds: seq<Cmd>): (ps: seq<Point>)
    requires HasPoints(cmds)
    ensures |ps| == |cmds| && forall i :: 0 <= i < |cmds| ==> ps[i] == PointOf(cmds[i])
  {
    seq(|cmds|, i requires 0 <= i < |cmds| => PointOf(cmds[i]))
  }

  /** The length of the polyline through the points, segment by segment. */
  function PathLength(sqrt: real -> real, ps: seq<Point>): real
    decreases |ps|
  {
    if |ps| < 2 then 0.0 else PathLength(sqrt, ps[..|ps| - 1]) + Dist(sqrt, ps[|ps| - 2], ps[|ps| - 1])
  }

  /** An extrude command as buffered at line 206: X, Y, E and F, no 'command' entry. */
  predicate BufferedExtrude(c: Cmd) {
    c.tag == None && c.fields.Keys == {'X', 'Y', 'E', 'F'}
  }

  /** The command buffered for an extrude move: its X, Y and E, and the current feedrate (line 206). */
  function Buffered(c: Cmd, feedrate: real): (b: Cmd)
    requires 'X' in c.fields && 'Y' in c.fields && 'E' in c.fields
    ensures BufferedExtrude(b) && PointOf(b) == Point(c.fields['X'], c.fields['Y'])
  {
    Cmd(None, map['X' := c.fields['X'], 'Y' := c.fields['Y'], 'E' := c.fields['E'], 'F' := feedrate])
  }

  /** A travel command as buffered at line 224: X, Y and F, no 'command' entry. */
  predicate BufferedTravel(c: Cmd) {
    c.tag == None && c.fields.Keys == {'X', 'Y', 'F'}
  }

  /**
   * The invariant of the loop: at most one block is open; the buffer is empty
   * outside blocks and holds only commands of the open block's kind inside one;
   * an extrude block's distance is the path length from last_pt, which stays at
   * the origin, through the buffered points.
   */
  ghost predicate Good(sqrt: real -> real, s: State) {
    && !(s.inExtrudeBlock && s.inTravelBlock)
    && s.lastPt == Origin
    && (!s.inExtrudeBlock && !s.inTravelBlock ==> s.cmdList == [])
    && (s.inExtrudeBlock ==>
          && |s.cmdList| >= 1
          && (forall i :: 0 <= i < |s.cmdList| ==> BufferedExtrude(s.cmdList[i]))
          && s.cartesianDist == PathLength(sqrt, [s.lastPt] + Points(s.cmdList)))
    && (s.inTravelBlock ==>
          && |s.cmdList| >= 1
          && (forall i :: 0 <= i < |s.cmdList| ==> BufferedTravel(s.cmdList[i])))
  }

  /** Lines 164-165: an F field sets the feedrate, whatever the command. */
  function SetFeedrate(s: State, c: Cmd): State {
    if 'F' in c.fields then s.(feedrate := c.fields['F']) else s
  }

  /** Lines 168-178: a non-extrude command closes an open extrude block, which is compensated and written. */
  function CloseExtrude(sqrt: real -> real, s: State, c: Cmd): StepResult
    requires s.inExtrudeBlock ==> |s.cmdList| >= 1 && Extrudable(s.cmdList)
  {
    if s.inExtrudeBlock && !IsExtrude(c) then
      var extrudeDist := E(s.cmdList[|s.cmdList| - 1]);
      match Compensated(sqrt, s.cmdList, s.cartesianDist, extrudeDist, s.feedrate, s.accelMax)
      case Err(e) => StepResult([], Err(e))
      case Ok(block) => StepResult(block, Ok(s.(inExtrudeBlock := false, cmdList := [])))
    else StepResult([], Ok(s))
  }

  /** Lines 185-188: the distance computed when a travel block closes (never read afterwards). */
  function TravelDist(sqrt: real -> real, s: State): real
    requires |s.cmdList| >= 1 && HasPoints(s.cmdList)
  {
    var n := |s.cmdList|;
    if n > 1 then s.cartesianDist + Dist(sqrt, PointOf(s.cmdList[n - 2]), PointOf(s.cmdList[n - 1]))
    else Dist(sqrt, s.lastPt, PointOf(s.cmdList[n - 1]))
  }

  /** Lines 181-195: a non-travel command closes an open travel block, which is written unchanged. */
  function CloseTravel(sqrt: real -> real, s: State, c: Cmd): StepResult
    requires s.inTravelBlock ==> |s.cmdList| >= 1 && HasPoints(s.cmdList)
  {
    if s.inTravelBlock && !IsTravel(c) then
      var dist := TravelDist(sqrt, s);
      StepResult(CompensateTravel(s.cmdList, dist),
                 Ok(s.(inTravelBlock := false, cartesianDist := dist, cmdList := [])))
    else StepResult([], Ok(s))
  }

  /** Lines 198-214: an extrude command opens or extends the extrude block and adds its segment. */
  function BufferExtrude(sqrt: real -> real, s: State, c: Cmd): StepResult
    requires IsExtrude(c) && HasPoints(s.cmdList)
  {
    var s1 := if !s.inExtrudeBlock then s.(inExtrudeBlock := true, cartesianDist := 0.0) else s;
    if 'X' !in c.fields then StepResult([], Err(KeyError("X")))
    else if 'Y' !in c.fields then StepResult([], Err(KeyError("Y")))
    else
      var list := s1.cmdList + [Buffered(c, s.feedrate)];
      var n := |list|;
      var dist := if n > 1 then s1.cartesianDist + Dist(sqrt, PointOf(list[n - 2]), PointOf(list[n - 1]))
                  else Dist(sqrt, s1.lastPt, PointOf(list[n - 1]));
      StepResult([], Ok(s1.(cmdList := list, cartesianDist := dist)))
  }

  /** Lines 217-225: a travel command opens or extends the travel block. */
  function BufferTravel(s: State, c: Cmd): StepResult
    requires IsTravel(c)
  {
    var s1 := if !s.inTravelBlock then s.(inTravelBlock := true, cartesianDist := 0.0) else s;
    if 'X' !in c.fields then StepResult([], Err(KeyError("X")))
    else if 'Y' !in c.fields then StepResult([], Err(KeyError("Y")))
    else
      var tmp := Cmd(None, map['X' := c.fields['X'], 'Y' := c.fields['Y'], 'F' := s.feedrate]);
      StepResult([], Ok(s1.(cmdList := s1.cmdList + [tmp])))
  }

  const SetAccel: string := "M204"

  /** Lines 228-233: any other command is written on its own; M204 sets the acceleration from S. */
  function PassThrough(s: State, c: Cmd): StepResult {
    if c.tag == Some(SetAccel) && 'S' !in c.fields then StepResult([], Err(KeyError("S")))
    else
      var accel := if c.tag == Some(SetAccel) then c.fields['S'] else s.accelMax;
      StepResult([c], Ok(s.(accelMax := accel, cmdList := [])))
  }

  /**
   * Lines 181-233: what follows the closing of an extrude block: closing a
   * travel block, then buffering or passing the command through.  The three
   * final ifs of the source are exclusive (ClassifierExclusive), so they form
   * one choice here.
   */
  function Finish(sqrt: real -> real, s: State, c: Cmd): StepResult
    requires HasPoints(s.cmdList) && (s.inTravelBlock ==> |s.cmdList| >= 1)
  {
    var closedTravel := CloseTravel(sqrt, s, c);
    var s3 := closedTravel.next.value;
    var last := if IsExtrude(c) then BufferExtrude(sqrt, s3, c)
                else if IsTravel(c) then BufferTravel(s3, c)
                else PassThrough(s3, c);
    StepResult(closedTravel.out + last.out, last.next)
  }

  /** One valid command: feedrate, then the closing of an open extrude block, then the rest. */
  function Step(sqrt: real -> real, s: State, c: Cmd): StepResult
    requires Good(sqrt, s)
  {
    var s1 := SetFeedrate(s, c);
    var closedExtrude := CloseExtrude(sqrt, s1, c);
    if closedExtrude.next.Err? then closedExtrude
    else
      var rest := Finish(sqrt, closedExtrude.next.value, c);
      StepResult(closedExtrude.out + rest.out, rest.next)
  }

  lemma {:induction false} PathLengthAppend(sqrt: real -> real, ps: seq<Point>, p: Point)
    requires |ps| >= 1
    ensures PathLength(sqrt, ps + [p]) == PathLength(sqrt, ps) + Dist(sqrt, ps[|ps| - 1], p)
  {
    assert (ps + [p])[..|ps|] == ps;
  }

  lemma CloseExtrudeKeepsGood(sqrt: real -> real, s: State, c: Cmd)
    requires Good(sqrt, s)
    ensures CloseExtrude(sqrt, s, c).next.Ok? ==> Good(sqrt, CloseExtrude(sqrt, s, c).next.value)
  {
  }

  lemma CloseTravelKeepsGood(sqrt: real -> real, s: State, c: Cmd)
    requires Good(sqrt, s)
    ensures Good(sqrt, CloseTravel(sqrt, s, c).next.value)
  {
  }

  lemma PointsAppend(cmds: seq<Cmd>, c: Cmd)
    requires HasPoints(cmds) && 'X' in c.fields && 'Y' in c.fields
    ensures HasPoints(cmds + [c]) && Points(cmds + [c]) == Points(cmds) + [PointOf(c)]
  {
    assert HasPoints(cmds + [c]);
  }

  /** The path through the block's points grows by the new segment. */
  lemma {:induction false} ExtrudePathGrows(sqrt: real -> real, start: Point, cmds: seq<Cmd>, c: Cmd)
    requires |cmds| >= 1 && HasPoints(cmds) && 'X' in c.fields && 'Y' in c.fields
    ensures HasPoints(cmds + [c])
    ensures PathLength(sqrt, [start] + Points(cmds + [c]))
         == PathLength(sqrt, [start] + Points(cmds)) + Dist(sqrt, PointOf(cmds[|cmds| - 1]), PointOf(c))
  {
    PointsAppend(cmds, c);
    var ps := [start] + Points(cmds);
    assert [start] + Points(cmds + [c]) == ps + [PointOf(c)];
    PathLengthAppend(sqrt, ps, PointOf(c));
  }

  /** Appending a buffered extrude command and its segment keeps the invariant. */
  lemma {:induction false} ExtendKeepsGood(sqrt: real -> real, s: State, tmp: Cmd)
    requires Good(sqrt, s) && s.inExtrudeBlock && BufferedExtrude(tmp)
    ensures Good(sqrt, s.(cmdList := s.cmdList + [tmp],
                          cartesianDist := s.cartesianDist + Dist(sqrt, PointOf(s.cmdList[|s.cmdList| - 1]), PointOf(tmp))))
  {
    ExtrudePathGrows(sqrt, s.lastPt, s.cmdList, tmp);
    var list := s.cmdList + [tmp];
    assert forall i :: 0 <= i < |list| ==> BufferedExtrude(list[i]);
  }

  /** Opening an extrude block with one buffered command keeps the invariant. */
  lemma {:induction false} OpenKeepsGood(sqrt: real -> real, s: State, tmp: Cmd)
    requires Good(sqrt, s) && !s.inExtrudeBlock && !s.inTravelBlock && BufferedExtrude(tmp)
    ensures Good(sqrt, s.(inExtrudeBlock := true, cmdList := [tmp], cartesianDist := Dist(sqrt, s.lastPt, PointOf(tmp))))
  {
    assert [s.lastPt] + Points([tmp]) == [s.lastPt, PointOf(tmp)];
  }

  /** Inside an extrude block, buffering appends the command and adds its segment. */
  lemma BufferExtrudeExtends(sqrt: real -> real, s: State, c: Cmd)
    requires IsExtrude(c) && HasPoints(s.cmdList) && s.inExtrudeBlock && |s.cmdList| >= 1
    requires 'X' in c.fields && 'Y' in c.fields
    ensures BufferExtrude(sqrt, s, c) ==
      StepResult([], Ok(s.(cmdList := s.cmdList + [Buffered(c, s.feedrate)],
                           cartesianDist := s.cartesianDist + Dist(sqrt, PointOf(s.cmdList[|s.cmdList| - 1]),
                                                                   PointOf(Buffered(c, s.feedrate))))))
  {
    var list := s.cmdList + [Buffered(c, s.feedrate)];
    assert list[|list| - 2] == s.cmdList[|s.cmdList| - 1];
  }

  /** Outside any block, buffering opens the block with the command's segment from last_pt. */
  lemma BufferExtrudeOpens(sqrt: real -> real, s: State, c: Cmd)
    requires IsExtrude(c) && s.cmdList == [] && !s.inExtrudeBlock
    requires 'X' in c.fields && 'Y' in c.fields
    ensures BufferExtrude(sqrt, s, c) ==
      StepResult([], Ok(s.(inExtrudeBlock := true, cmdList := [Buffered(c, s.feedrate)],
                           cartesianDist := Dist(sqrt, s.lastPt, PointOf(Buffered(c, s.feedrate))))))
  {
    assert s.cmdList + [Buffered(c, s.feedrate)] == [Buffered(c, s.feedrate)];
  }

  lemma {:induction false} BufferExtrudeKeepsGood(sqrt: real -> real, s: State, c: Cmd)
    requires Good(sqrt, s) && !s.inTravelBlock && IsExtrude(c)
    ensures BufferExtrude(sqrt, s, c).next.Ok? ==> Good(sqrt, BufferExtrude(sqrt, s, c).next.value)
  {
    if 'X' in c.fields && 'Y' in c.fields {
      ClassifierExclusive(c);
      if s.inExtrudeBlock {
        BufferExtrudeExtends(sqrt, s, c);
        ExtendKeepsGood(sqrt, s, Buffered(c, s.feedrate));
      } else {
        BufferExtrudeOpens(sqrt, s, c);
        OpenKeepsGood(sqrt, s, Buffered(c, s.feedrate));
      }
    }
  }

  lemma BufferTravelKeepsGood(sqrt: real -> real, s: State, c: Cmd)
    requires Good(sqrt, s) && !s.inExtrudeBlock && IsTravel(c)
    ensures BufferTravel(s, c).next.Ok? ==> Good(sqrt, BufferTravel(s, c).next.value)
  {
  }

  lemma PassThroughKeepsGood(sqrt: real -> real, s: State, c: Cmd)
    requires Good(sqrt, s) && !s.inExtrudeBlock && !s.inTravelBlock
    ensures PassThrough(s, c).next.Ok? ==> Good(sqrt, PassThrough(s, c).next.value)
  {
  }

  /** Each line keeps the invariant. */
  lemma StepKeepsGood(sqrt: real -> real, s: State, c: Cmd)
    requires Good(sqrt, s)
    ensures Step(sqrt, s, c).next.Ok? ==> Good(sqrt, Step(sqrt, s, c).next.value)
  {
    var s1 := SetFeedrate(s, c);
    assert Good(sqrt, s1);
    var closedExtrude := CloseExtrude(sqrt, s1, c);
    CloseExtrudeKeepsGood(sqrt, s1, c);
    if closedExtrude.next.Ok? {
      var s2 := closedExtrude.next.value;
      CloseTravelKeepsGood(sqrt, s2, c);
      var s3 := CloseTravel(sqrt, s2, c).next.value;
      ClassifierExclusive(c);
      if IsExtrude(c) {
        BufferExtrudeKeepsGood(sqrt, s3, c);
      } else if IsTravel(c) {
        BufferTravelKeepsGood(sqrt, s3, c);
      } else {
        PassThroughKeepsGood(sqrt, s3, c);
      }
    }
  }

  /** The state left when the open extrude block has been closed by c (line 170 and line 178). */
  function ExtrudeClosed(s: State, c: Cmd): State {
    SetFeedrate(s, c).(inExtrudeBlock := false, cmdList := [])
  }

  /** The state left when the open travel block has been closed by c (lines 182-195). */
  function TravelClosed(sqrt: real -> real, s: State, c: Cmd): State
    requires |s.cmdList| >= 1 && HasPoints(s.cmdList)
  {
    SetFeedrate(s, c).(inTravelBlock := false, cartesianDist := TravelDist(sqrt, s), cmdList := [])
  }

  /**
   * A command that is not an extrude move ends an open extrude block: the block
   * is compensated over the path from the origin through its points, with the
   * E of its last command, the feedrate as set by this very command and the
   * acceleration from before it, and written before the command itself is handled.
   */
  lemma ExtrudeBlockCloses(sqrt: real -> real, s: State, c: Cmd)
    requires Good(sqrt, s) && s.inExtrudeBlock && !IsExtrude(c)
    ensures Good(sqrt, ExtrudeClosed(s, c))
    ensures
      var comp := Compensated(sqrt, s.cmdList, PathLength(sqrt, [Origin] + Points(s.cmdList)),
                              E(s.cmdList[|s.cmdList| - 1]), SetFeedrate(s, c).feedrate, s.accelMax);
      var rest := Step(sqrt, ExtrudeClosed(s, c), c);
      && (comp.Err? ==> Step(sqrt, s, c) == StepResult([], Err(comp.error)))
      && (comp.Ok? ==> Step(sqrt, s, c) == StepResult(comp.value + rest.out, rest.next))
  {
    var s1 := SetFeedrate(s, c);
    var closed := ExtrudeClosed(s, c);
    assert s1.cmdList == s.cmdList && s1.cartesianDist == PathLength(sqrt, [Origin] + Points(s.cmdList));
    assert SetFeedrate(closed, c) == closed;
    assert CloseExtrude(sqrt, closed, c) == StepResult([], Ok(closed));
    var finish := Finish(sqrt, closed, c);
    assert Step(sqrt, closed, c) == StepResult([] + finish.out, finish.next);
    assert [] + finish.out == finish.out;
  }

  /**
   * A command that is not a travel move ends an open travel block, which is
   * written unchanged before the command itself is handled.
   */
  lemma TravelBlockCloses(sqrt: real -> real, s: State, c: Cmd)
    requires Good(sqrt, s) && s.inTravelBlock && !IsTravel(c)
    ensures Good(sqrt, TravelClosed(sqrt, s, c))
    ensures
      var rest := Step(sqrt, TravelClosed(sqrt, s, c), c);
      Step(sqrt, s, c) == StepResult(s.cmdList + rest.out, rest.next)
  {
    var s1 := SetFeedrate(s, c);
    var closed := TravelClosed(sqrt, s, c);
    assert SetFeedrate(closed, c) == closed;
    assert CloseExtrude(sqrt, closed, c) == StepResult([], Ok(closed));
    assert CloseTravel(sqrt, closed, c) == StepResult([], Ok(closed));
    assert CloseExtrude(sqrt, s1, c) == StepResult([], Ok(s1));
    assert CloseTravel(sqrt, s1, c) == StepResult(s.cmdList, Ok(closed));
    var finish := Finish(sqrt, closed, c);
    assert Step(sqrt, closed, c) == StepResult([] + finish.out, finish.next);
    assert Step(sqrt, s, c) == StepResult([] + Finish(sqrt, s1, c).out, Finish(sqrt, s1, c).next);
  }

  /**
   * Outside any block, an extrude move opens a block holding just its X, Y, E
   * and the current feedrate, with the distance from the origin to its point;
   * it raises KeyError only when X or Y is missing.  Nothing is written.
   */
  lemma ExtrudeOpensBlock(sqrt: real -> real, s: State, c: Cmd)
    requires Good(sqrt, s) && !s.inExtrudeBlock && !s.inTravelBlock && IsExtrude(c)
    ensures
      var r := Step(sqrt, s, c);
      var s1 := SetFeedrate(s, c);
      && r.out == []
      && ('X' !in c.fields ==> r.next == Err(KeyError("X")))
      && ('X' in c.fields && 'Y' !in c.fields ==> r.next == Err(KeyError("Y")))
      && ('X' in c.fields && 'Y' in c.fields ==>
            r.next == Ok(s1.(inExtrudeBlock := true,
                             cmdList := [Cmd(None, map['X' := c.fields['X'], 'Y' := c.fields['Y'],
                                                       'E' := c.fields['E'], 'F' := s1.feedrate])],
                             cartesianDist := Dist(sqrt, Origin, Point(c.fields['X'], c.fields['Y'])))))
  {
    ClassifierExclusive(c);
    var s1 := SetFeedrate(s, c);
    assert CloseExtrude(sqrt, s1, c) == StepResult([], Ok(s1));
    assert CloseTravel(sqrt, s1, c) == StepResult([], Ok(s1));
    assert s1.cmdList == [];
    if 'X' in c.fields && 'Y' in c.fields {
      var tmp := Cmd(None, map['X' := c.fields['X'], 'Y' := c.fields['Y'], 'E' := c.fields['E'], 'F' := s1.feedrate]);
      assert [] + [tmp] == [tmp];
      assert PointOf(tmp) == Point(c.fields['X'], c.fields['Y']);
      var b := BufferExtrude(sqrt, s1, c);
      assert b.next.value.cmdList == [tmp];
      assert b.next.value.cartesianDist == Dist(sqrt, Origin, PointOf(tmp));
    }
  }

  /**
   * Inside an extrude block, an extrude move is appended with the current
   * feedrate and its segment is added to the block's distance; it raises
   * KeyError only when X or Y is missing.  Nothing is written.
   */
  lemma ExtrudeExtendsBlock(sqrt: real -> real, s: State, c: Cmd)
    requires Good(sqrt, s) && s.inExtrudeBlock && IsExtrude(c)
    ensures
      var r := Step(sqrt, s, c);
      var s1 := SetFeedrate(s, c);
      && r.out == []
      && ('X' !in c.fields ==> r.next == Err(KeyError("X")))
      && ('X' in c.fields && 'Y' !in c.fields ==> r.next == Err(KeyError("Y")))
      && ('X' in c.fields && 'Y' in c.fields ==>
            var p := Point(c.fields['X'], c.fields['Y']);
            r.next == Ok(s1.(cmdList := s.cmdList + [Cmd(None, map['X' := p.x, 'Y' := p.y,
                                                                 'E' := c.fields['E'], 'F' := s1.feedrate])],
                             cartesianDist := s.cartesianDist + Dist(sqrt, PointOf(s.cmdList[|s.cmdList| - 1]), p))))
  {
    ClassifierExclusive(c);
    if 'X' in c.fields && 'Y' in c.fields {
      var r := BufferExtrude(sqrt, SetFeedrate(s, c), c);
      assert r.next.value.cmdList[|r.next.value.cmdList| - 2] == s.cmdList[|s.cmdList| - 1];
    }
  }

  /**
   * Outside any block, a travel move opens a block holding just its X, Y and
   * the current feedrate; it raises KeyError only when X or Y is missing.
   */
  lemma TravelOpensBlock(sqrt: real -> real, s: State, c: Cmd)
    requires Good(sqrt, s) && !s.inExtrudeBlock && !s.inTravelBlock && IsTravel(c)
    ensures
      var r := Step(sqrt, s, c);
      var s1 := SetFeedrate(s, c);
      && r.out == []
      && ('X' !in c.fields ==> r.next == Err(KeyError("X")))
      && ('X' in c.fields && 'Y' !in c.fields ==> r.next == Err(KeyError("Y")))
      && ('X' in c.fields && 'Y' in c.fields ==>
            r.next == Ok(s1.(inTravelBlock := true, cartesianDist := 0.0,
                             cmdList := [Cmd(None, map['X' := c.fields['X'], 'Y' := c.fields['Y'], 'F' := s1.feedrate])])))
  {
    ClassifierExclusive(c);
    var s1 := SetFeedrate(s, c);
    assert CloseExtrude(sqrt, s1, c) == StepResult([], Ok(s1));
    assert CloseTravel(sqrt, s1, c) == StepResult([], Ok(s1));
    assert s1.cmdList == [];
    if 'X' in c.fields && 'Y' in c.fields {
      var tmp := Cmd(None, map['X' := c.fields['X'], 'Y' := c.fields['Y'], 'F' := s1.feedrate]);
      assert [] + [tmp] == [tmp];
      assert BufferTravel(s1, c).next.value.cmdList == [tmp];
    }
  }

  /**
   * Inside a travel block, a travel move is appended with the current
   * feedrate; it raises KeyError only when X or Y is missing.
   */
  lemma TravelExtendsBlock(sqrt: real -> real, s: State, c: Cmd)
    requires Good(sqrt, s) && s.inTravelBlock && IsTravel(c)
    ensures
      var r := Step(sqrt, s, c);
      var s1 := SetFeedrate(s, c);
      && r.out == []
      && ('X' !in c.fields ==> r.next == Err(KeyError("X")))
      && ('X' in c.fields && 'Y' !in c.fields ==> r.next == Err(KeyError("Y")))
      && ('X' in c.fields && 'Y' in c.fields ==>
            r.next == Ok(s1.(cmdList := s.cmdList + [Cmd(None, map['X' := c.fields['X'], 'Y' := c.fields['Y'],
                                                                 'F' := s1.feedrate])])))
  {
    ClassifierExclusive(c);
  }

  /**
   * Outside any block, any other command is written as it is and empties the
   * buffer; M204 takes the acceleration from S and raises KeyError without it.
   */
  lemma OtherPassesThrough(sqrt: real -> real, s: State, c: Cmd)
    requires Good(sqrt, s) && !s.inExtrudeBlock && !s.inTravelBlock && !IsExtrude(c) && !IsTravel(c)
    ensures
      var r := Step(sqrt, s, c);
      var s1 := SetFeedrate(s, c);
      && (c.tag == Some(SetAccel) && 'S' !in c.fields ==> r == StepResult([], Err(KeyError("S"))))
      && (c.tag == Some(SetAccel) && 'S' in c.fields ==> r == StepResult([c], Ok(s1.(accelMax := c.fields['S']))))
      && (c.tag != Some(SetAccel) ==> r == StepResult([c], Ok(s1)))
  {
  }

  /**
   * The feedrate after a line is its F when it has one, and the acceleration
   * changes only on an M204, to its S.
   */
  lemma SettingsFollowCommands(sqrt: real -> real, s: State, c: Cmd)
    requires Good(sqrt, s) && Step(sqrt, s, c).next.Ok?
    ensures Step(sqrt, s, c).next.value.feedrate == if 'F' in c.fields then c.fields['F'] else s.feedrate
    ensures c.tag == Some(SetAccel) ==> 'S' in c.fields && Step(sqrt, s, c).next.value.accelMax == c.fields['S']
    ensures c.tag != Some(SetAccel) ==> Step(sqrt, s, c).next.value.accelMax == s.accelMax
  {
    ClassifierExclusive(c);
  }

  /**
   * With no M204 seen yet the acceleration is 0, so the first extrude block to
   * close raises ZeroDivisionError, even when the command closing it is an M204.
   */
  lemma ZeroAccelerationCrashes(sqrt: real -> real, s: State, c: Cmd)
    requires Good(sqrt, s) && s.inExtrudeBlock && s.accelMax == 0.0 && !IsExtrude(c)
    ensures Step(sqrt, s, c) == StepResult([], Err(ZeroDivisionError))
  {
    ExtrudeBlockCloses(sqrt, s, c);
  }

  /** The whole run from state s over the remaining lines: lines 158-236. */
  function Exec(sqrt: real -> real, toFloat: string -> Option<real>, s: State, lines: seq<string>): Transcript
    requires Good(sqrt, s)
    decreases |lines|
  {
    if |lines| == 0 then Transcript(s.cmdList, None)
    else
      match ParseLine(lines[0], toFloat)
      case Err(e) => Transcript([], Some(e))
      case Ok(c) =>
        if !IsValid(c) then Exec(sqrt, toFloat, s, lines[1..])
        else
          var r := Step(sqrt, s, c);
          match r.next
          case Err(e) => Transcript(r.out, Some(e))
          case Ok(next) =>
            StepKeepsGood(sqrt, s, c);
            Prepend(r.out, Exec(sqrt, toFloat, next, lines[1..]))
  }

  /** A line that parses to an invalid command (a comment, a T or S word, a blank) is skipped: it writes nothing and changes nothing. */
  lemma {:induction false} InvalidLineSkipped(sqrt: real -> real, toFloat: string -> Option<real>, s: State,
                                              line: string, rest: seq<string>)
    requires Good(sqrt, s) && ParseLine(line, toFloat).Ok? && !IsValid(ParseLine(line, toFloat).value)
    ensures Exec(sqrt, toFloat, s, [line] + rest) == Exec(sqrt, toFloat, s, rest)
  {
    assert ([line] + rest)[1..] == rest;
  }

  /** At the end of the file whatever is buffered is written as it is, an extrude block without compensation. */
  lemma EndOfFileWritesBuffer(sqrt: real -> real, toFloat: string -> Option<real>, s: State)
    requires Good(sqrt, s)
    ensures Exec(sqrt, toFloat, s, []) == Transcript(s.cmdList, None)
    ensures s.inExtrudeBlock || s.inTravelBlock <==> Exec(sqrt, toFloat, s, []).out != []
  {
  }

  /** Unfolds Exec at line i when the line raises in parse_command. */
  lemma ExecParseError(sqrt: real -> real, toFloat: string -> Option<real>, s: State, lines: seq<string>, i: nat)
    requires Good(sqrt, s) && i < |lines| && ParseLine(lines[i], toFloat).Err?
    ensures Exec(sqrt, toFloat, s, lines[i..]) == Transcript([], Some(ParseLine(lines[i], toFloat).error))
  {
    assert lines[i..][0] == lines[i];
  }

  /** Unfolds Exec at line i when the line parses to an invalid command. */
  lemma ExecInvalid(sqrt: real -> real, toFloat: string -> Option<real>, s: State, lines: seq<string>, i: nat)
    requires Good(sqrt, s) && i < |lines|
    requires ParseLine(lines[i], toFloat).Ok? && !IsValid(ParseLine(lines[i], toFloat).value)
    ensures Exec(sqrt, toFloat, s, lines[i..]) == Exec(sqrt, toFloat, s, lines[i + 1..])
  {
    assert lines[i..][0] == lines[i] && lines[i..][1..] == lines[i + 1..];
  }

  /** Unfolds Exec at line i when the line parses to a valid command c, which gives emitted and next. */
  lemma ExecValid(sqrt: real -> real, toFloat: string -> Option<real>, s: State, lines: seq<string>, i: nat, c: Cmd,
                  emitted: seq<Cmd>, next: Result<State, Crash>)
    requires Good(sqrt, s) && i < |lines| && ParseLine(lines[i], toFloat) == Ok(c) && IsValid(c)
    requires StepResult(emitted, next) == Step(sqrt, s, c)
    ensures next.Err? ==> Exec(sqrt, toFloat, s, lines[i..]) == Transcript(emitted, Some(next.error))
    ensures next.Ok? ==>
      && Good(sqrt, next.value)
      && Exec(sqrt, toFloat, s, lines[i..]) == Prepend(emitted, Exec(sqrt, toFloat, next.value, lines[i + 1..]))
  {
    assert lines[i..][0] == lines[i] && lines[i..][1..] == lines[i + 1..];
    StepKeepsGood(sqrt, s, c);
  }

  lemma PrependTwice(a: seq<Cmd>, b: seq<Cmd>, t: Transcript)
    ensures Prepend(a, Prepend(b, t)) == Prepend(a + b, t)
  {
    assert a + (b + t.out) == (a + b) + t.out;
  }

  /** Lines 168-178 against the loop's variables, held in s. */
  method CloseExtrudeBlock(sqrt: real -> real, s: State, cmd: Cmd) returns (emitted: seq<Cmd>, next: Result<State, Crash>)
    requires s.inExtrudeBlock ==> |s.cmdList| >= 1 && Extrudable(s.cmdList)
    ensures StepResult(emitted, next) == CloseExtrude(sqrt, s, cmd)
  {
    var inExtrudeBlock, cmdList := s.inExtrudeBlock, s.cmdList;
    emitted := [];
    if inExtrudeBlock && !IsExtrude(cmd) {
      inExtrudeBlock := false;
      var extrudeDist := E(cmdList[|cmdList| - 1]);
      var block := CompensateExtrude(sqrt, cmdList, s.cartesianDist, extrudeDist, s.feedrate, s.accelMax);
      if block.Err? {
        return [], Err(block.error);
      }
      emitted := block.value;
      cmdList := [];
    }
    next := Ok(s.(inExtrudeBlock := inExtrudeBlock, cmdList := cmdList));
  }

  /** Lines 181-195 against the loop's variables, held in s. */
  method CloseTravelBlock(sqrt: real -> real, s: State, cmd: Cmd) returns (emitted: seq<Cmd>, next: State)
    requires s.inTravelBlock ==> |s.cmdList| >= 1 && HasPoints(s.cmdList)
    ensures StepResult(emitted, Ok(next)) == CloseTravel(sqrt, s, cmd)
  {
    var inTravelBlock, cmdList, cartesianDist := s.inTravelBlock, s.cmdList, s.cartesianDist;
    emitted := [];
    if inTravelBlock && !IsTravel(cmd) {
      inTravelBlock := false;
      if |cmdList| > 1 {
        cartesianDist := cartesianDist + Dist(sqrt, PointOf(cmdList[|cmdList| - 2]), PointOf(cmdList[|cmdList| - 1]));
      } else {
        cartesianDist := Dist(sqrt, s.lastPt, PointOf(cmdList[|cmdList| - 1]));
      }
      cmdList := CompensateTravel(cmdList, cartesianDist);
      emitted := cmdList;
      cmdList := [];
    }
    next := s.(inTravelBlock := inTravelBlock, cartesianDist := cartesianDist, cmdList := cmdList);
  }

  /** Lines 198-233 against the loop's variables, held in s: buffer the command or write it. */
  method Dispatch(sqrt: real -> real, s: State, cmd: Cmd) returns (emitted: seq<Cmd>, next: Result<State, Crash>)
    requires HasPoints(s.cmdList)
    ensures StepResult(emitted, next) ==
      if IsExtrude(cmd) then BufferExtrude(sqrt, s, cmd)
      else if IsTravel(cmd) then BufferTravel(s, cmd)
      else PassThrough(s, cmd)
  {
    ClassifierExclusive(cmd);
    var inExtrudeBlock, inTravelBlock, cmdList, cartesianDist, accelMax :=
      s.inExtrudeBlock, s.inTravelBlock, s.cmdList, s.cartesianDist, s.accelMax;
    emitted := [];
    if IsExtrude(cmd) {
      if !inExtrudeBlock {
        inExtrudeBlock := true;
        cartesianDist := 0.0;
      }
      if 'X' !in cmd.fields {
        return [], Err(KeyError("X"));
      }
      if 'Y' !in cmd.fields {
        return [], Err(KeyError("Y"));
      }
      var tmp := Cmd(None, map['X' := cmd.fields['X'], 'Y' := cmd.fields['Y'], 'E' := cmd.fields['E'], 'F' := s.feedrate]);
      cmdList := cmdList + [tmp];
      if |cmdList| > 1 {
        cartesianDist := cartesianDist + Dist(sqrt, PointOf(cmdList[|cmdList| - 2]), PointOf(cmdList[|cmdList| - 1]));
      } else {
        cartesianDist := Dist(sqrt, s.lastPt, PointOf(cmdList[|cmdList| - 1]));
      }
    }
    if IsTravel(cmd) {
      if !inTravelBlock {
        inTravelBlock := true;
        cartesianDist := 0.0;
      }
      if 'X' !in cmd.fields {
        return [], Err(KeyError("X"));
      }
      if 'Y' !in cmd.fields {
        return [], Err(KeyError("Y"));
      }
      var tmp := Cmd(None, map['X' := cmd.fields['X'], 'Y' := cmd.fields['Y'], 'F' := s.feedrate]);
      cmdList := cmdList + [tmp];
    }
    if !IsTravel(cmd) && !IsExtrude(cmd) {
      if cmd.tag == Some(SetAccel) {
        if 'S' !in cmd.fields {
          return [], Err(KeyError("S"));
        }
        accelMax := cmd.fields['S'];
      }
      emitted := [cmd];
      cmdList := [];
    }
    next := Ok(s.(inExtrudeBlock := inExtrudeBlock, inTravelBlock := inTravelBlock, cmdList := cmdList,
                  cartesianDist := cartesianDist, accelMax := accelMax));
  }

  /** Lines 181-233 against the loop's variables, held in s. */
  method FinishCommand(sqrt: real -> real, s: State, cmd: Cmd) returns (emitted: seq<Cmd>, next: Result<State, Crash>)
    requires HasPoints(s.cmdList) && (s.inTravelBlock ==> |s.cmdList| >= 1)
    ensures StepResult(emitted, next) == Finish(sqrt, s, cmd)
  {
    var first, afterTravel := CloseTravelBlock(sqrt, s, cmd);
    var second;
    second, next := Dispatch(sqrt, afterTravel, cmd);
    emitted := first + second;
  }

  /**
   * Lines 163-233: one valid command against the loop's variables, held in st.
   * It writes what Step writes and leaves the state Step leaves, or raises the
   * same exception.
   */
  method ProcessCommand(sqrt: real -> real, st: State, cmd: Cmd) returns (emitted: seq<Cmd>, next: Result<State, Crash>)
    requires Good(sqrt, st)
    ensures StepResult(emitted, next) == Step(sqrt, st, cmd)
  {
    var s := st;
    if 'F' in cmd.fields {
      s := s.(feedrate := cmd.fields['F']);
    }
    var first, afterExtrude := CloseExtrudeBlock(sqrt, s, cmd);
    if afterExtrude.Err? {
      return first, afterExtrude;
    }
    var rest;
    rest, next := FinishCommand(sqrt, afterExtrude.value, cmd);
    emitted := first + rest;
  }

  /**
   * Lines 147-236: the body of main over the lines of the file.  It writes the
   * commands Exec writes, in the same order, and stops with the same exception.
   */
  method Run(lines: seq<string>, toFloat: string -> Option<real>, sqrt: real -> real)
    returns (out: seq<Cmd>, crash: Option<Crash>)
    ensures Transcript(out, crash) == Exec(sqrt, toFloat, Start, lines)
  {
    var state := Start;
    out := [];
    var i := 0;
    while i < |lines|
      invariant 0 <= i <= |lines|
      invariant Good(sqrt, state)
      invariant Exec(sqrt, toFloat, Start, lines) == Prepend(out, Exec(sqrt, toFloat, state, lines[i..]))
    {
      var parsed := ParseCommand(lines[i], toFloat);
      if parsed.Err? {
        ExecParseError(sqrt, toFloat, state, lines, i);
        crash := Some(parsed.error);
        return;
      }
      var cmd := parsed.value;
      if !IsValid(cmd) {
        ExecInvalid(sqrt, toFloat, state, lines, i);
      } else {
        var emitted, next := ProcessCommand(sqrt, state, cmd);
        ExecValid(sqrt, toFloat, state, lines, i, cmd, emitted, next);
        if next.Err? {
          out := out + emitted;
          crash := Some(next.error);
          return;
        }
        PrependTwice(out, emitted, Exec(sqrt, toFloat, next.value, lines[i + 1..]));
        out := out + emitted;
        state := next.value;
      }
      i := i + 1;
    }
    assert lines[i..] == [];
    EndOfFileWritesBuffer(sqrt, toFloat, state);
    if |state.cmdList| != 0 {
      out := out + state.cmdList;
    }
    crash := None;
  }
}
