/** Per-runner stepping of runner.go: `updatePosition` moves a runner right by
    its velocity and wraps it off-screen left past the right edge, and
    `nextFrame` advances the animation frame index modulo the frame count.
    Both take a possibly-nil runner and do nothing for nil. */
module Runners {
  import opened Common
  import opened Types

  /** The sprite width that `updatePosition` re-enters with: the display width
      of the first line of the current frame, or 1 when there are no frames,
      the index is past the last frame, or the current frame has no lines.
      (A negative index with frames present would make Go panic.) */
  function WrapWidth(frames: seq<seq<string>>, idx: int, width: string -> nat): (w: nat)
    requires |frames| > 0 ==> idx >= 0
    ensures 0 <= idx < |frames| && |frames[idx]| > 0 ==> w == width(frames[idx][0])
    ensures !(0 <= idx < |frames| && |frames[idx]| > 0) ==> w == 1
  {
    if |frames| > 0 && idx < |frames| && |frames[idx]| > 0 then width(frames[idx][0]) else 1
  }

  /** X after one step of velocity `v` on a screen `termWidth` cells wide: a
      runner that ends up past the right edge re-enters fully hidden on the
      left, at minus the sprite width. */
  function Advance(x: real, v: real, termWidth: int, artWidth: nat): (nx: real)
    ensures x + v <= termWidth as real ==> nx == x + v
    ensures termWidth >= 0 ==> nx <= termWidth as real
    ensures nx != x + v ==> nx + artWidth as real == 0.0
    ensures x + v > termWidth as real ==> nx == -(artWidth as real)
  {
    if x + v > termWidth as real then -(artWidth as real) else x + v
  }

  /** A runner that starts between "hidden on the left" and the right edge
      stays there: the band [-maxWidth, termWidth] is invariant under steps
      with non-negative velocity, whatever width each wrap uses up to maxWidth. */
  lemma AdvanceStaysInBand(x: real, v: real, termWidth: int, artWidth: nat, maxWidth: nat)
    requires 0 <= termWidth && 0.0 <= v && artWidth <= maxWidth
    requires -(maxWidth as real) <= x <= termWidth as real
    ensures -(maxWidth as real) <= Advance(x, v, termWidth, artWidth) <= termWidth as real
  {
  }

  /** The frame index after one `nextFrame`: unchanged without frames,
      otherwise the successor modulo the frame count, using Go's remainder. */
  function NextIdx(idx: int, n: nat): (r: int)
    ensures n == 0 ==> r == idx
    ensures 0 <= idx < n ==> 0 <= r < n && r == (if idx + 1 == n then 0 else idx + 1)
    ensures n > 0 ==> -(n as int) < r < n
  {
    if n == 0 then idx else SuccMod(idx, n); GoRem(idx + 1, n)
  }

  lemma SuccMod(idx: int, n: nat)
    requires n > 0
    ensures 0 <= idx < n ==> (idx + 1) % n == if idx + 1 == n then 0 else idx + 1
  {
    if 0 <= idx < n {
      if idx + 1 == n {
        ModUnique(idx + 1, n, 1, 0);
      } else {
        ModUnique(idx + 1, n, 0, idx + 1);
      }
    }
  }

  /** The frame index after `k` successive `nextFrame` calls. */
  function Cycle(idx: int, n: nat, k: nat): int
  {
    if k == 0 then idx else NextIdx(Cycle(idx, n, k - 1), n)
  }

  /** From an in-range start, `k` steps land on (idx + k) mod n. */
  lemma {:induction false} CycleIsModular(idx: int, n: nat, k: nat)
    requires 0 <= idx < n
    ensures Cycle(idx, n, k) == (idx + k) % n
  {
    if k == 0 {
      ModUnique(idx, n, 0, idx);
    } else {
      CycleIsModular(idx, n, k - 1);
      ModSucc(idx + k - 1, n);
    }
  }

  /** Stepping a remainder by one: it wraps to 0 exactly at n. */
  lemma ModSucc(a: int, n: nat)
    requires n > 0
    ensures (a + 1) % n == if a % n + 1 == n then 0 else a % n + 1
  {
    var q, r := a / n, a % n;
    assert a == q * n + r;
    if r + 1 == n {
      assert a + 1 == (q + 1) * n + 0;
      ModUnique(a + 1, n, q + 1, 0);
    } else {
      ModUnique(a + 1, n, q, r + 1);
    }
  }

  /** n successive `nextFrame` calls bring an in-range index back to its start. */
  lemma CycleReturns(idx: int, n: nat)
    requires 0 <= idx < n
    ensures Cycle(idx, n, n) == idx
    ensures forall k :: 0 <= k <= n ==> 0 <= Cycle(idx, n, k) < n
  {
    CycleIsModular(idx, n, n);
    ModUnique(idx + n, n, 1, idx);
    forall k | 0 <= k <= n
      ensures 0 <= Cycle(idx, n, k) < n
    {
      CycleIsModular(idx, n, k);
    }
  }

  /** With no frames, any number of `nextFrame` calls leaves the index alone. */
  lemma {:induction false} CycleWithoutFrames(idx: int, k: nat)
    ensures Cycle(idx, 0, k) == idx
  {
    if k > 0 {
      CycleWithoutFrames(idx, k - 1);
    }
  }

  /** `updatePosition`: X advances by the velocity and wraps using the width of
      the current frame's first line; nothing else about the runner changes.
      A nil runner is accepted and left alone. */
  method UpdatePosition(runner: Runner?, termWidth: int, width: string -> nat)
    requires runner != null && |runner.artFrames| > 0 ==> runner.currentFrameIdx >= 0
    modifies runner
    ensures runner != null ==>
      unchanged(runner`id, runner`kind, runner`velocity, runner`artFrames,
                runner`currentFrameIdx, runner`color)
    ensures runner != null ==>
      runner.pos == Position(
        Advance(old(runner.pos.x), runner.velocity, termWidth,
                WrapWidth(runner.artFrames, runner.currentFrameIdx, width)),
        old(runner.pos.y))
  {
    if runner == null {
      return;
    }
    var newX := runner.pos.x + runner.velocity;
    runner.pos := runner.pos.(x := newX);

    var artWidth: nat;
    if |runner.artFrames| > 0 && runner.currentFrameIdx < |runner.artFrames|
       && |runner.artFrames[runner.currentFrameIdx]| > 0
    {
      artWidth := width(runner.artFrames[runner.currentFrameIdx][0]);
    } else {
      artWidth := 1;
    }

    if runner.pos.x > termWidth as real {
      runner.pos := runner.pos.(x := -(artWidth as real));
    }
  }

  /** `nextFrame`: the frame index moves on by one modulo the frame count; a nil
      runner or an empty frame list is left alone. */
  method NextFrame(runner: Runner?)
    modifies runner
    ensures runner != null ==>
      runner.currentFrameIdx == NextIdx(old(runner.currentFrameIdx), |runner.artFrames|)
    ensures runner != null ==>
      unchanged(runner`id, runner`kind, runner`pos, runner`velocity, runner`artFrames, runner`color)
  {
    if runner == null || |runner.artFrames| == 0 {
      return;
    }
    runner.currentFrameIdx := GoRem(runner.currentFrameIdx + 1, |runner.artFrames|);
  }

  /** The expected values of the repository's runner tests, derived from the
      contracts above with the display width of a string taken as its length. */
  method RunnerScenarios()
  {
    var width := (s: string) => |s|;
    var color := AdaptiveColor("1", "1");

    var r := new Runner(1, Jogger, Position(10.0, 5.0), 2.0, [["art"]], 0, color);
    UpdatePosition(r, 80, width);
    assert r.pos == Position(12.0, 5.0);

    r := new Runner(1, Jogger, Position(10.0, 5.0), 1.5, [["art"]], 0, color);
    UpdatePosition(r, 80, width);
    assert r.pos == Position(11.5, 5.0);

    r := new Runner(1, Jogger, Position(78.0, 5.0), 3.0, [["abc"]], 0, color);
    UpdatePosition(r, 80, width);
    assert r.pos == Position(-3.0, 5.0);

    r := new Runner(1, Jogger, Position(-5.0, 5.0), 2.0, [["art"]], 0, color);
    UpdatePosition(r, 80, width);
    assert r.pos == Position(-3.0, 5.0);

    UpdatePosition(null, 80, width);
    NextFrame(null);

    r := new Runner(1, Jogger, Position(0.0, 0.0), 1.0, [["f1"], ["f2"]], 0, color);
    NextFrame(r);
    assert r.currentFrameIdx == 1;
    NextFrame(r);
    assert r.currentFrameIdx == 0;

    r := new Runner(1, Jogger, Position(0.0, 0.0), 1.0, [["f1"], ["f2"], ["f3"]], 0, color);
    NextFrame(r);
    assert r.currentFrameIdx == 1;
    NextFrame(r);
    assert r.currentFrameIdx == 2;

    r := new Runner(1, Jogger, Position(0.0, 0.0), 1.0, [["f1"]], 0, color);
    NextFrame(r);
    assert r.currentFrameIdx == 0;

    r := new Runner(1, Jogger, Position(0.0, 0.0), 1.0, [], 0, color);
    NextFrame(r);
    NextFrame(r);
    assert r.currentFrameIdx == 0;
  }
}
