// The bezel: its shortest-way rotation to a section's angle, animated in
// 6-degree ticks, and the 60 markers drawn around it.

module Bezel {

  /** The angles the bezel ever rests at: the section angles. */
  predicate Mapped(a: int)
  {
    a == 0 || a == 90 || a == 180 || a == 270
  }

  function Abs(x: int): nat
  {
    if x < 0 then -x else x
  }

  /** Degrees turned per tick (`stepSize`). */
  const StepSize: int := 6

  /** The signed turn from `start` to `target`, brought into [-180, 180] by one
      correction of a full turn ("always go the short way around"). */
  function ShortestDiff(start: int, target: int): (d: int)
    ensures (d - (target - start)) % 360 == 0
    ensures 0 <= start < 360 && 0 <= target < 360 ==> -180 <= d <= 180
    ensures -180 <= target - start <= 180 ==> d == target - start
  {
    var diff := target - start;
    var diff' := if diff > 180 then diff - 360 else diff;
    if diff' < -180 then diff' + 360 else diff'
  }

  /** No other turn that lands on the same angle is shorter. */
  lemma {:induction false} ShortestDiffIsShortest(start: int, target: int, e: int)
    requires 0 <= start < 360 && 0 <= target < 360
    requires (e - (target - start)) % 360 == 0
    ensures Abs(ShortestDiff(start, target)) <= Abs(e)
  {
    var d := ShortestDiff(start, target);
    var k := (e - d) / 360;
    assert (e - d) % 360 == 0;
    assert e == d + 360 * k;
    if k > 0 {
      assert e >= d + 360;
    } else if k < 0 {
      assert e <= d - 360;
    }
  }

  /** Both ends of the range occur: a half turn is taken clockwise from 0 and
      from 90, anticlockwise from 180 and from 270; from 270 to 0 the turn is a
      quarter forward. */
  lemma DiffEndpoints()
    ensures ShortestDiff(0, 180) == 180
    ensures ShortestDiff(180, 0) == -180
    ensures ShortestDiff(90, 270) == 180
    ensures ShortestDiff(270, 90) == -180
    ensures ShortestDiff(270, 0) == 90
  {
  }

  /** `Math.max(1, Math.round(Math.abs(diff) / stepSize))`: the number of ticks.
      `Math.round` rounds halves up, which for a non-negative integer numerator
      is `(|diff| + 3) / 6`. */
  function TickCount(d: int): (n: int)
    ensures n >= 1
    ensures n == 1 ==> Abs(d) < StepSize + StepSize / 2
    ensures n > 1 ==> StepSize * n - StepSize / 2 <= Abs(d) < StepSize * n + StepSize / 2
  {
    var rounded := (Abs(d) + StepSize / 2) / StepSize;
    if rounded > 1 then rounded else 1
  }

  /** `diff / steps`: the turn per tick of a rotation. */
  function TickDelta(start: int, target: int): int
  {
    ShortestDiff(start, target) / TickCount(ShortestDiff(start, target))
  }

  /** Between mapped angles every tick turns exactly one step the short way, and
      the number of ticks times the step is the whole turn; a rotation to the
      current angle takes a single tick. */
  lemma MappedTicks(start: int, target: int)
    requires Mapped(start) && Mapped(target)
    ensures TickDelta(start, target) == 0 || Abs(TickDelta(start, target)) == StepSize
    ensures TickDelta(start, target) * TickCount(ShortestDiff(start, target)) == ShortestDiff(start, target)
    ensures (start + TickDelta(start, target) * TickCount(ShortestDiff(start, target)) - target) % 360 == 0
    ensures TickCount(ShortestDiff(start, target)) == 1 <==> start == target
  {
    var d := ShortestDiff(start, target);
    assert d == 0 <==> start == target;
    assert d == 0 || d == 90 || d == -90 || d == 180 || d == -180;
    var n := TickCount(d);
    if d == 0 {
      assert n == 1;
    } else if d == 90 || d == -90 {
      assert n == 15;
      assert d / n * n == d;
    } else {
      assert n == 30;
      assert d / n * n == d;
    }
  }

  /** The tick loop of `rotateBezelAndDial`: the angles applied to the markers,
      one per tick; the last tick applies the target itself. */
  method RotationFrames(start: int, target: int) returns (frames: seq<int>)
    requires Mapped(start) && Mapped(target)
    ensures |frames| == TickCount(ShortestDiff(start, target))
    ensures frames[|frames| - 1] == target
    ensures forall k :: 0 <= k < |frames| - 1 ==> frames[k] == start + TickDelta(start, target) * (k + 1)
  {
    var diff := ShortestDiff(start, target);
    var steps := TickCount(diff);
    var step := 0;
    var done := false;
    frames := [];
    while !done
      invariant 0 <= step <= steps
      invariant |frames| == step
      invariant done <==> step == steps
      invariant done ==> frames[step - 1] == target
      invariant forall k :: 0 <= k < step && k < steps - 1 ==> frames[k] == start + (diff / steps) * (k + 1)
      decreases steps - step
    {
      step := step + 1;
      if step >= steps {
        frames := frames + [target];
        done := true;
      } else {
        frames := frames + [start + (diff / steps) * step];
      }
    }
  }

  /** Frames at mapped angles are one step apart, and the final frame is where
      one more step would land, up to a full turn. */
  lemma {:induction false} FramesAreEvenTicks(start: int, target: int, frames: seq<int>)
    requires Mapped(start) && Mapped(target)
    requires |frames| == TickCount(ShortestDiff(start, target))
    requires frames[|frames| - 1] == target
    requires forall k :: 0 <= k < |frames| - 1 ==> frames[k] == start + TickDelta(start, target) * (k + 1)
    ensures forall k :: 0 < k < |frames| - 1 ==> Abs(frames[k] - frames[k - 1]) == StepSize
    ensures |frames| > 1 ==> (frames[|frames| - 1] - frames[|frames| - 2] - TickDelta(start, target)) % 360 == 0
  {
    MappedTicks(start, target);
    var n := |frames|;
    var t := TickDelta(start, target);
    if n > 2 {
      assert t != 0;
    }
    EvenFrames(start, t, frames);
    if n > 1 {
      OneTickApart(start, t, n - 1);
      assert frames[n - 1] - frames[n - 2] - t == -(start + t * n - target);
    }
  }

  /** Frames placed `t` apart from `start` differ by `|t|` one to the next. */
  lemma {:induction false} EvenFrames(start: int, t: int, frames: seq<int>)
    requires forall k :: 0 <= k < |frames| - 1 ==> frames[k] == start + t * (k + 1)
    ensures forall k :: 0 < k < |frames| - 1 ==> Abs(frames[k] - frames[k - 1]) == Abs(t)
  {
    forall k | 0 < k < |frames| - 1
      ensures Abs(frames[k] - frames[k - 1]) == Abs(t)
    {
      OneTickApart(start, t, k);
    }
  }

  /** Tick `k + 1` lands one turn-per-tick beyond tick `k`. */
  lemma OneTickApart(start: int, t: int, k: int)
    ensures (start + t * (k + 1)) - (start + t * k) == t
  {
  }

  /** One bezel marker: plain, an hour position (where a dial button sits), or
      a numbered main marker at `angle` degrees. */
  datatype Mark = Plain | Hour | Main(num: int, angle: int)

  /** `generateBezelMarkers`: 60 markers, or none if the container is missing. */
  method GenerateBezelMarkers(hasContainer: bool) returns (marks: seq<Mark>)
    ensures !hasContainer ==> marks == []
    ensures hasContainer ==> |marks| == 60
    ensures forall i :: 0 <= i < |marks| ==> (marks[i].Hour? <==> i % 15 == 0)
    ensures forall i :: 0 <= i < |marks| ==> (marks[i].Main? <==> i % 5 == 0 && i % 15 != 0)
    ensures forall i :: 0 <= i < |marks| && marks[i].Main? ==> marks[i].num == i && marks[i].angle == i * StepSize
  {
    marks := [];
    if !hasContainer {
      return;
    }
    for i := 0 to 60
      invariant |marks| == i
      invariant forall j :: 0 <= j < i ==> (marks[j].Hour? <==> j % 15 == 0)
      invariant forall j :: 0 <= j < i ==> (marks[j].Main? <==> j % 5 == 0 && j % 15 != 0)
      invariant forall j :: 0 <= j < i && marks[j].Main? ==> marks[j].num == j && marks[j].angle == j * StepSize
    {
      var isHour := i == 0 || i == 15 || i == 30 || i == 45;
      var mark := Plain;
      if isHour {
        mark := Hour;
      } else if i % 5 == 0 {
        mark := Main(i, i * StepSize);
      }
      marks := marks + [mark];
    }
  }

  /** The hour positions are exactly the section angles, and no numbered marker
      falls on one of them. */
  lemma MarkersAvoidButtons(i: int)
    requires 0 <= i < 60
    ensures i % 15 == 0 <==> Mapped(i * StepSize)
    ensures i % 5 == 0 && i % 15 != 0 ==> (i * StepSize) % 90 != 0
  {
  }
}
