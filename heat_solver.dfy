/** The time-stepping loop of main.py as it runs: arrays of temperatures,
    a fresh buffer per step that the stencil writes while it reads the
    previous field, and a growing list of snapshots. Each method is proved
    equal to its specification in HeatEquation. */
module HeatSolver {
  import opened HeatEquation

  /** A fresh array holding the same values (NumPy's copy). */
  method CopyField(a: array<real>) returns (b: array<real>)
    ensures fresh(b) && b[..] == a[..]
  {
    b := new real[a.Length];
    for i := 0 to a.Length
      invariant forall j :: 0 <= j < i ==> b[j] == a[j]
    {
      b[i] := a[i];
    }
  }

  /** One step, double-buffered: the new field starts as a copy of the old
      one, then the interior indices 1 .. n-2 are overwritten from the
      untouched old field. */
  method StepBuffered(temperature: array<real>, r: real) returns (next: array<real>)
    ensures fresh(next)
    ensures next[..] == Step(temperature[..], r)
  {
    next := CopyField(temperature);
    var nx := temperature.Length;
    var i := 1;
    while i < nx - 1
      invariant 1 <= i <= if nx >= 2 then nx - 1 else 1
      invariant next.Length == nx
      invariant nx > 0 ==> next[0] == temperature[0]
      invariant forall j :: 0 < j < i ==>
        next[j] == Stencil(temperature[j - 1], temperature[j], temperature[j + 1], r)
      invariant forall j :: i <= j < nx ==> next[j] == temperature[j]
    {
      next[i] := temperature[i] + r * (temperature[i - 1] - 2.0 * temperature[i] + temperature[i + 1]);
      i := i + 1;
    }
    forall j | 0 <= j < nx ensures next[..][j] == Step(temperature[..], r)[j] {
    }
  }

  /** A fresh field of nx zeros whose index 0 is then set to the hot end. */
  method InitialField(nx: nat) returns (temperature: array<real>)
    requires nx >= 1
    ensures fresh(temperature) && temperature[..] == Initial(nx)
  {
    temperature := new real[nx];
    for i := 0 to nx
      invariant forall j :: 0 <= j < i ==> temperature[j] == 0.0
    {
      temperature[i] := 0.0;
    }
    temperature[0] := HotEnd;
    assert forall j :: 0 <= j < nx ==> temperature[..][j] == Initial(nx)[j];
  }

  /** The whole simulation: the initial field, then totalTimeSteps
      double-buffered steps, each resulting field appended to the history.
      The history is exactly the run of the specification. */
  method Simulate(nx: nat, r: real, totalTimeSteps: nat) returns (history: History)
    requires nx >= 1
    ensures history == Run(Initial(nx), r, totalTimeSteps)
  {
    var temperature := InitialField(nx);
    history := [temperature[..]];
    var n := 0;
    while n < totalTimeSteps
      invariant 0 <= n <= totalTimeSteps
      invariant temperature[..] == Iterate(Initial(nx), r, n)
      invariant history == Run(Initial(nx), r, n)
    {
      var newTemperature := StepBuffered(temperature, r);
      temperature := CopyField(newTemperature);
      history := history + [temperature[..]];
      n := n + 1;
    }
  }

  /** The script as configured: 50 points, r = 1/4, 500 steps. Its 501
      snapshots are exactly the script's history, so they keep the hot end
      at 100 and the far end at 0, and stay within the plot's range [0, 100]. */
  method RunScript() returns (history: History)
    ensures history == ScriptHistory()
    ensures |history| == TotalTimeSteps + 1 && history[0] == Initial(Nx)
    ensures forall k :: 0 <= k < |history| ==>
      |history[k]| == Nx && history[k][0] == HotEnd && history[k][Nx - 1] == 0.0
    ensures forall k, i :: 0 <= k < |history| && 0 <= i < Nx ==> 0.0 <= history[k][i] <= HotEnd
  {
    history := Simulate(Nx, DiffusionNumber(Alpha, Dt, Dx), TotalTimeSteps);
  }
}
