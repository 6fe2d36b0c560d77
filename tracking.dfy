/** The heart counter of the line-tracking game: a heart is lost each time the
    sensor goes from on the line (HIGH) to off it (LOW). */
module Tracking {

  const MaxHearts: int := 5

  /** A reading of the tracking sensor: HIGH on the line, LOW off it. */
  datatype Level = Low | High

  /** Whether the sensor was last seen on the line after the readings rs; a
      game starts on the line. */
  function OnLine(rs: seq<Level>): bool {
    if rs == [] then true else rs[|rs| - 1] == High
  }

  /** Reading i leaves the line: it is LOW and the reading before it (or the
      start of the game) was on the line. */
  predicate LeavesLine(rs: seq<Level>, i: int)
    requires 0 <= i < |rs|
  {
    rs[i] == Low && (i == 0 || rs[i - 1] == High)
  }

  /** The number of on-to-off edges in rs. */
  function FallingEdges(rs: seq<Level>): nat
    decreases |rs|
  {
    if rs == [] then 0
    else FallingEdges(rs[..|rs| - 1]) + (if LeavesLine(rs, |rs| - 1) then 1 else 0)
  }

  /** The number of edges in rs after which at least one heart remains, each of
      which starts a warning beep. */
  function Warnings(rs: seq<Level>): nat
    decreases |rs|
  {
    if rs == [] then 0
    else
      Warnings(rs[..|rs| - 1])
      + (if LeavesLine(rs, |rs| - 1) && MaxHearts - FallingEdges(rs) >= 1 then 1 else 0)
  }

  /** One game: hearts start at MaxHearts on the line, and the loop reads the
      sensor until the hearts run out (or the given readings do).  `consumed`
      is the number of readings taken and `warnings` the number of warning
      beeps started. */
  method PlayGame(readings: seq<Level>) returns (hearts: int, consumed: nat, warnings: nat)
    ensures consumed <= |readings|
    // the hearts lost are exactly the on-to-off edges processed
    ensures hearts == MaxHearts - FallingEdges(readings[..consumed])
    ensures 0 <= hearts <= MaxHearts
    // the loop stops exactly when the hearts reach zero
    ensures hearts == 0 || consumed == |readings|
    ensures forall k :: 0 <= k < consumed ==> FallingEdges(readings[..k]) < MaxHearts
    // every lost heart beeps except the last one
    ensures warnings == Warnings(readings[..consumed])
    ensures warnings == MaxHearts - hearts - (if hearts == 0 then 1 else 0)
  {
    hearts := MaxHearts;
    var prevOnLine := true;
    consumed := 0;
    warnings := 0;
    while hearts > 0 && consumed < |readings|
      invariant consumed <= |readings|
      invariant prevOnLine == OnLine(readings[..consumed])
      invariant hearts == MaxHearts - FallingEdges(readings[..consumed])
      invariant 0 <= hearts <= MaxHearts
      invariant forall k :: 0 <= k < consumed ==> FallingEdges(readings[..k]) < MaxHearts
      invariant warnings == Warnings(readings[..consumed])
      invariant warnings == MaxHearts - hearts - (if hearts == 0 then 1 else 0)
      decreases |readings| - consumed
    {
      var sensor := readings[consumed];
      ghost var before := readings[..consumed];
      assert readings[..consumed + 1] == before + [sensor];
      StepOfReading(before, sensor);
      if sensor == Low && prevOnLine {
        hearts := hearts - 1;
        prevOnLine := false;
        if hearts >= 1 {
          warnings := warnings + 1;
        }
      } else if sensor == High {
        prevOnLine := true;
      }
      consumed := consumed + 1;
    }
  }

  /** What one more reading does to the reference counts. */
  lemma StepOfReading(rs: seq<Level>, r: Level)
    ensures var rs' := rs + [r];
      && OnLine(rs') == (r == High)
      && FallingEdges(rs') == FallingEdges(rs) + (if r == Low && OnLine(rs) then 1 else 0)
      && Warnings(rs') == Warnings(rs)
           + (if r == Low && OnLine(rs) && MaxHearts - FallingEdges(rs') >= 1 then 1 else 0)
  {
    var rs' := rs + [r];
    assert rs'[..|rs'| - 1] == rs;
  }

  /** A run of LOW readings costs at most one heart, however long it is. */
  lemma {:induction false} LowRunCostsAtMostOneHeart(rs: seq<Level>, lows: seq<Level>)
    requires forall i :: 0 <= i < |lows| ==> lows[i] == Low
    ensures FallingEdges(rs + lows) <= FallingEdges(rs) + 1
    ensures |lows| > 0 ==> FallingEdges(rs + lows) == FallingEdges(rs) + (if OnLine(rs) then 1 else 0)
    decreases |lows|
  {
    if lows != [] {
      var init := lows[..|lows| - 1];
      assert rs + lows == (rs + init) + [Low];
      LowRunCostsAtMostOneHeart(rs, init);
      StepOfReading(rs + init, Low);
      if init != [] {
        assert (rs + init)[|rs + init| - 1] == Low;
      } else {
        assert rs + init == rs;
      }
    } else {
      assert rs + lows == rs;
    }
  }

  /** Hearts can only be lost on alternations: n readings hold at most (n + 1) / 2 edges. */
  lemma {:induction false} EdgesNeedAReturnToTheLine(rs: seq<Level>)
    ensures FallingEdges(rs) <= (|rs| + 1) / 2
    ensures OnLine(rs) ==> FallingEdges(rs) <= |rs| / 2
    decreases |rs|
  {
    if rs != [] {
      var init := rs[..|rs| - 1];
      assert rs == init + [rs[|rs| - 1]];
      EdgesNeedAReturnToTheLine(init);
      StepOfReading(init, rs[|rs| - 1]);
    }
  }
}
