/** The explicit forward-time, centred-space scheme for the 1-D heat
    equation that main.py runs, stated as pure functions over exact reals,
    together with what the scheme promises: the shape of the history, the
    fixed hot end, the frozen far end, the no-overshoot bound under the
    stability condition and the finite speed at which heat spreads. */
module HeatEquation {

  /** A temperature profile along the wire, one value per grid point. */
  type Field = seq<real>

  /** The snapshots of a run: the initial field, then one field per step. */
  type History = seq<Field>

  // The script's parameters (main.py lines 11-16).
  const Length: real := 1.0
  const Nx: nat := 50
  const Dx: real := Length / (Nx as real)
  const Dt: real := 0.01
  const Alpha: real := 0.01
  const TotalTimeSteps: nat := 500

  /** The temperature at which the heated end of the wire starts. */
  const HotEnd: real := 100.0

  /** The diffusion number alpha * dt / dx^2 that scales the stencil. */
  function DiffusionNumber(alpha: real, dt: real, dx: real): (r: real)
    requires dx != 0.0
    ensures r * (dx * dx) == alpha * dt
  {
    alpha * dt / (dx * dx)
  }

  /** The explicit scheme keeps every new value a convex combination of its
      neighbours exactly when the diffusion number lies in [0, 1/2]
      (StencilWithin for one direction, UnstableOvershoots for the other). */
  predicate Stable(r: real) {
    0.0 <= r <= 0.5
  }

  /** The diffusion number of the script's constants: 0.01 * 0.01 / 0.02^2. */
  function ScriptRatio(): (r: real)
    ensures r == 0.25 && Stable(r)
  {
    DiffusionNumber(Alpha, Dt, Dx)
  }

  /** All values of the field lie in [lo, hi]. */
  predicate InRange(t: Field, lo: real, hi: real) {
    forall i :: 0 <= i < |t| ==> lo <= t[i] <= hi
  }

  /** The wire at time zero: zeros, except the hot end at index 0. */
  function Initial(nx: nat): (t: Field)
    requires nx >= 1
    ensures |t| == nx && t[0] == HotEnd
    ensures forall i :: 1 <= i < nx ==> t[i] == 0.0
    ensures InRange(t, 0.0, HotEnd)
  {
    [HotEnd] + seq(nx - 1, _ => 0.0)
  }

  /** The three-point update of one interior value from its old neighbours. */
  function Stencil(left: real, mid: real, right: real, r: real): real {
    mid + r * (left - 2.0 * mid + right)
  }

  /** One time step: every interior index gets the stencil of the OLD field;
      index 0 and the last index are carried over unchanged. */
  function Step(t: Field, r: real): (u: Field)
    ensures |u| == |t|
  {
    seq(|t|, i requires 0 <= i < |t| =>
      if 0 < i < |t| - 1 then Stencil(t[i - 1], t[i], t[i + 1], r) else t[i])
  }

  /** The field after k steps. */
  function Iterate(t: Field, r: real, k: nat): (u: Field)
    ensures |u| == |t|
    decreases k
  {
    if k == 0 then t else Step(Iterate(t, r, k - 1), r)
  }

  /** The history list: the initial snapshot, then each step's field appended
      in turn. Entry k is the field after k steps. */
  function Run(t0: Field, r: real, steps: nat): (h: History)
    ensures |h| == steps + 1 && h[0] == t0
    ensures forall k :: 0 <= k <= steps ==> h[k] == Iterate(t0, r, k)
    decreases steps
  {
    if steps == 0 then [t0]
    else
      var prev := Run(t0, r, steps - 1);
      prev + [Step(prev[|prev| - 1], r)]
  }

  // ---------------------------------------------------------------------
  // Locality of the stencil

  /** A new value depends only on the old values at i-1, i and i+1 (those
      that exist): two old fields that agree there give the same new value. */
  lemma StepIsLocal(t: Field, t': Field, r: real, i: nat)
    requires |t| == |t'| && i < |t|
    requires forall j :: i - 1 <= j <= i + 1 && 0 <= j < |t| ==> t[j] == t'[j]
    ensures Step(t, r)[i] == Step(t', r)[i]
  {
    assert t[i] == t'[i];
    if 0 < i < |t| - 1 {
      assert t[i - 1] == t'[i - 1] && t[i + 1] == t'[i + 1];
    }
  }

  // ---------------------------------------------------------------------
  // The two ends of the wire

  /** Neither end of the wire is ever written by a step. */
  lemma {:induction false} IterateKeepsEnds(t: Field, r: real, k: nat)
    requires |t| > 0
    ensures Iterate(t, r, k)[0] == t[0]
    ensures Iterate(t, r, k)[|t| - 1] == t[|t| - 1]
    decreases k
  {
    if k > 0 {
      IterateKeepsEnds(t, r, k - 1);
      var prev := Iterate(t, r, k - 1);
      assert Step(prev, r)[0] == prev[0];
      assert Step(prev, r)[|prev| - 1] == prev[|prev| - 1];
    }
  }

  /** Every snapshot of a run from the initial field has nx values, the hot
      end at 100 and, the last index never being updated, 0 at index nx-1. */
  lemma HistoryKeepsEnds(nx: nat, r: real, steps: nat)
    requires nx >= 2
    ensures forall k :: 0 <= k <= steps ==>
      |Run(Initial(nx), r, steps)[k]| == nx &&
      Run(Initial(nx), r, steps)[k][0] == HotEnd &&
      Run(Initial(nx), r, steps)[k][nx - 1] == 0.0
  {
    var h := Run(Initial(nx), r, steps);
    forall k | 0 <= k <= steps
      ensures |h[k]| == nx && h[k][0] == HotEnd && h[k][nx - 1] == 0.0
    {
      IterateKeepsEnds(Initial(nx), r, k);
    }
  }

  // ---------------------------------------------------------------------
  // No overshoot under the stability condition

  lemma ProductNonNegative(a: real, b: real)
    requires a >= 0.0 && b >= 0.0
    ensures a * b >= 0.0
  {
  }

  /** With 0 <= r <= 1/2 the stencil is the convex combination
      r*left + (1-2r)*mid + r*right, so it stays between the bounds of its
      three inputs. */
  lemma StencilWithin(left: real, mid: real, right: real, r: real, lo: real, hi: real)
    requires Stable(r)
    requires lo <= left <= hi && lo <= mid <= hi && lo <= right <= hi
    ensures lo <= Stencil(left, mid, right, r) <= hi
  {
    var s := Stencil(left, mid, right, r);
    assert s - lo == r * (left - lo) + (1.0 - 2.0 * r) * (mid - lo) + r * (right - lo);
    assert hi - s == r * (hi - left) + (1.0 - 2.0 * r) * (hi - mid) + r * (hi - right);
    ProductNonNegative(r, left - lo);
    ProductNonNegative(1.0 - 2.0 * r, mid - lo);
    ProductNonNegative(r, right - lo);
    ProductNonNegative(r, hi - left);
    ProductNonNegative(1.0 - 2.0 * r, hi - mid);
    ProductNonNegative(r, hi - right);
  }

  /** A stable step never leaves the range of the field it starts from. */
  lemma StepWithin(t: Field, r: real, lo: real, hi: real)
    requires Stable(r) && InRange(t, lo, hi)
    ensures InRange(Step(t, r), lo, hi)
  {
    var u := Step(t, r);
    forall i | 0 <= i < |u| ensures lo <= u[i] <= hi {
      if 0 < i < |t| - 1 {
        StencilWithin(t[i - 1], t[i], t[i + 1], r, lo, hi);
      }
    }
  }

  /** Conversely, outside [0, 1/2] a single step overshoots: from the field
      [0, 1, 0], which lies in [0, 1], the middle value becomes 1 - 2r, which
      is negative when r > 1/2 and above 1 when r < 0. */
  lemma UnstableOvershoots(r: real)
    requires !Stable(r)
    ensures InRange([0.0, 1.0, 0.0], 0.0, 1.0)
    ensures !InRange(Step([0.0, 1.0, 0.0], r), 0.0, 1.0)
  {
    assert Step([0.0, 1.0, 0.0], r)[1] == 1.0 - 2.0 * r;
  }

  lemma {:induction false} IterateWithin(t: Field, r: real, k: nat, lo: real, hi: real)
    requires Stable(r) && InRange(t, lo, hi)
    ensures InRange(Iterate(t, r, k), lo, hi)
    decreases k
  {
    if k > 0 {
      IterateWithin(t, r, k - 1, lo, hi);
      StepWithin(Iterate(t, r, k - 1), r, lo, hi);
    }
  }

  /** Under the stability condition every temperature of every snapshot lies
      in [0, 100], the range the plot's y-axis is fixed to. */
  lemma HistoryWithinPlotRange(nx: nat, r: real, steps: nat)
    requires nx >= 1 && Stable(r)
    ensures forall k, i :: 0 <= k <= steps && 0 <= i < nx ==>
      0.0 <= Run(Initial(nx), r, steps)[k][i] <= HotEnd
  {
    var h := Run(Initial(nx), r, steps);
    forall k, i | 0 <= k <= steps && 0 <= i < nx
      ensures 0.0 <= h[k][i] <= HotEnd
    {
      IterateWithin(Initial(nx), r, k, 0.0, HotEnd);
    }
  }

  // ---------------------------------------------------------------------
  // Finite propagation

  /** If the field is 0 beyond index j, one step makes it 0 beyond j+1. */
  lemma StepSpreadsOneCell(t: Field, r: real, j: nat)
    requires forall i :: j < i < |t| ==> t[i] == 0.0
    ensures forall i :: j + 1 < i < |t| ==> Step(t, r)[i] == 0.0
  {
    forall i | j + 1 < i < |t| ensures Step(t, r)[i] == 0.0 {
      if i < |t| - 1 {
        assert t[i - 1] == 0.0 && t[i] == 0.0 && t[i + 1] == 0.0;
      }
    }
  }

  /** After k steps from the initial field every index beyond k is still 0. */
  lemma {:induction false} IterateFinitePropagation(nx: nat, r: real, k: nat)
    requires nx >= 1
    ensures forall i :: k < i < nx ==> Iterate(Initial(nx), r, k)[i] == 0.0
    decreases k
  {
    if k > 0 {
      IterateFinitePropagation(nx, r, k - 1);
      StepSpreadsOneCell(Iterate(Initial(nx), r, k - 1), r, k - 1);
    }
  }

  /** Heat travels at most one grid point per step: snapshot k is 0 at every
      index beyond k. */
  lemma HistoryFinitePropagation(nx: nat, r: real, steps: nat)
    requires nx >= 1
    ensures forall k, i :: 0 <= k <= steps && k < i < nx ==>
      Run(Initial(nx), r, steps)[k][i] == 0.0
  {
    var h := Run(Initial(nx), r, steps);
    forall k, i | 0 <= k <= steps && k < i < nx
      ensures h[k][i] == 0.0
    {
      IterateFinitePropagation(nx, r, k);
    }
  }

  // ---------------------------------------------------------------------
  // Heat flows away from the hot end

  /** Temperatures never increase along the wire. */
  predicate NonIncreasing(t: Field) {
    forall i :: 0 < i < |t| ==> t[i] <= t[i - 1]
  }

  /** Stencils of two overlapping windows of a non-increasing profile are
      ordered: their difference is a convex combination of old differences. */
  lemma StencilMonotone(a: real, b: real, c: real, d: real, r: real)
    requires Stable(r) && a >= b >= c >= d
    ensures Stencil(b, c, d, r) <= Stencil(a, b, c, r)
  {
    assert Stencil(a, b, c, r) - Stencil(b, c, d, r)
      == r * (a - b) + (1.0 - 2.0 * r) * (b - c) + r * (c - d);
    ProductNonNegative(r, a - b);
    ProductNonNegative(1.0 - 2.0 * r, b - c);
    ProductNonNegative(r, c - d);
  }

  /** A stable step keeps a non-increasing profile non-increasing: each
      difference of neighbouring new values is a convex combination of old
      differences, and at either end the copied value bounds its neighbour. */
  lemma StepKeepsNonIncreasing(t: Field, r: real)
    requires Stable(r) && NonIncreasing(t)
    ensures NonIncreasing(Step(t, r))
  {
    var u := Step(t, r);
    var n := |t|;
    forall i | 0 < i < n ensures u[i] <= u[i - 1] {
      if 1 < i < n - 1 {
        StencilMonotone(t[i - 2], t[i - 1], t[i], t[i + 1], r);
      } else if i == 1 && n > 2 {
        StencilWithin(t[0], t[1], t[2], r, t[2], t[0]);
      } else if i == n - 1 && n > 2 {
        StencilWithin(t[n - 3], t[n - 2], t[n - 1], r, t[n - 1], t[n - 3]);
      }
    }
  }

  lemma {:induction false} IterateKeepsNonIncreasing(t: Field, r: real, k: nat)
    requires Stable(r) && NonIncreasing(t)
    ensures NonIncreasing(Iterate(t, r, k))
    decreases k
  {
    if k > 0 {
      IterateKeepsNonIncreasing(t, r, k - 1);
      StepKeepsNonIncreasing(Iterate(t, r, k - 1), r);
    }
  }

  /** Under the stability condition every snapshot of a run from the initial
      field is non-increasing from the hot end towards the far end. */
  lemma HistoryNonIncreasing(nx: nat, r: real, steps: nat)
    requires nx >= 1 && Stable(r)
    ensures forall k :: 0 <= k <= steps ==> NonIncreasing(Run(Initial(nx), r, steps)[k])
  {
    var h := Run(Initial(nx), r, steps);
    forall k | 0 <= k <= steps ensures NonIncreasing(h[k]) {
      IterateKeepsNonIncreasing(Initial(nx), r, k);
    }
  }

  /** With the script's constants the first step gives [100, 25, 0, ..., 0]. */
  lemma ScriptFirstStep()
    ensures Step(Initial(Nx), ScriptRatio()) == [HotEnd, 25.0] + seq(Nx - 2, _ => 0.0)
  {
    var t := Initial(Nx);
    var u := Step(t, ScriptRatio());
    var expected := [HotEnd, 25.0] + seq(Nx - 2, _ => 0.0);
    StepSpreadsOneCell(t, ScriptRatio(), 0);
    assert u[1] == Stencil(HotEnd, 0.0, 0.0, 0.25);
    forall i | 0 <= i < Nx ensures u[i] == expected[i] {
    }
  }

  /** The script's history: 501 snapshots of 50 values each, all in [0, 100],
      with the hot end at 100, the far end at 0, heat spread at most one
      point per step and every profile non-increasing along the wire. */
  function ScriptHistory(): (h: History)
    ensures |h| == TotalTimeSteps + 1 && h[0] == Initial(Nx)
    ensures forall k :: 0 <= k < |h| ==>
      |h[k]| == Nx && h[k][0] == HotEnd && h[k][Nx - 1] == 0.0
    ensures forall k, i :: 0 <= k < |h| && 0 <= i < Nx ==> 0.0 <= h[k][i] <= HotEnd
    ensures forall k, i :: 0 <= k < |h| && k < i < Nx ==> h[k][i] == 0.0
    ensures forall k :: 0 <= k < |h| ==> NonIncreasing(h[k])
  {
    HistoryNonIncreasing(Nx, ScriptRatio(), TotalTimeSteps);
    HistoryKeepsEnds(Nx, ScriptRatio(), TotalTimeSteps);
    HistoryWithinPlotRange(Nx, ScriptRatio(), TotalTimeSteps);
    HistoryFinitePropagation(Nx, ScriptRatio(), TotalTimeSteps);
    Run(Initial(Nx), ScriptRatio(), TotalTimeSteps)
  }
}
