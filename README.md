# Heat diffusion along a wire — verified model of the solver kernel

The script `main.py` simulates heat flowing along a thin wire of length 1 m,
split into `nx = 50` grid points. It uses the explicit forward-time,
centred-space finite-difference scheme for the 1-D heat equation. The wire
starts at 0 °C except index 0, which is heated to 100 °C. Each of the 500 time
steps copies the current field into a fresh buffer. It then overwrites the
interior indices `1 .. nx-2` with the three-point stencil
`t[i] + r * (t[i-1] - 2 t[i] + t[i+1])`, where `r = alpha * dt / dx^2`, reading
only the previous field. Each step's field is appended to a history list that
starts with the initial snapshot.

This project models that kernel in Dafny:

- `heat_equation.dfy`, module `HeatEquation`: the specification as pure
  functions over exact `real`s. `Initial` is the starting field, `Step` one
  step, `Iterate` k steps and `Run` the history. Lemmas prove what the scheme
  promises about them.
- `heat_solver.dfy`, module `HeatSolver`: the loops as the script runs them.
  Array methods write into a separate output buffer, and the step loop appends
  each field to the history. Each method is proved equal to its specification
  function.

The diffusion number `r` is a parameter. The script's constants give
`r = 0.01 * 0.01 / 0.02^2 = 1/4` (`ScriptRatio`). The bound and monotonicity
lemmas require the stability condition `0 <= r <= 1/2`, which the script
meets. The script itself never checks this condition.

## Model

| member | source | states |
|---|---|---|
| `HeatEquation.DiffusionNumber` | main.py:30 | the factor `alpha * dt / dx**2` is the quotient whose product with `dx^2` is `alpha * dt` |
| `HeatEquation.ScriptRatio` | main.py:11-15 | with length 1.0, nx 50, dt 0.01 and alpha 0.01, the diffusion number is exactly 1/4, inside the stability range [0, 1/2] |
| `HeatEquation.Initial` | main.py:19-20 | the initial field has nx values, 100 at index 0, 0 at every other index, hence all in [0, 100] |
| `HeatEquation.Step` | main.py:27-32 | one step keeps the field length |
| `HeatEquation.Iterate` | main.py:26-32 | any number of steps keeps the field length |
| `HeatEquation.Run` | main.py:23-33 | the history has steps + 1 entries; entry 0 is the initial field and entry k is the field after k steps |
| `HeatEquation.StepIsLocal` | main.py:27-31 | a new value at i depends only on the previous step's values at i-1, i, i+1: two old fields that agree there give the same new value |
| `HeatEquation.IterateKeepsEnds` | main.py:27-28 | after any number of steps, index 0 and the last index still hold their initial values (neither is in `range(1, nx - 1)`) |
| `HeatEquation.HistoryKeepsEnds` | main.py:19-33 | for nx >= 2, every history entry has length nx, 100 at index 0 and 0 at index nx-1 |
| `HeatEquation.StencilWithin` | main.py:30-31 | for 0 <= r <= 1/2 the stencil lies between the bounds of its three old values (convex combination) |
| `HeatEquation.StepWithin` | main.py:27-31 | a stable step keeps every value within any range [lo, hi] that holds the old field (no overshoot) |
| `HeatEquation.UnstableOvershoots` | main.py:28-31 | for r outside [0, 1/2], a range the parameters at main.py:13-15 are never checked against, one step of the stencil takes the field [0, 1, 0] out of its range [0, 1]; this is the converse of StepWithin |
| `HeatEquation.IterateWithin` | main.py:26-32 | any number of stable steps keeps the field within the starting field's range |
| `HeatEquation.HistoryWithinPlotRange` | main.py:19-33 | under stability every value of every history entry lies in [0, 100], the y-range the plot is fixed to at line 43 |
| `HeatEquation.StencilMonotone` | main.py:30-31 | for stable r, the stencil values of two overlapping windows of a non-increasing profile keep their order |
| `HeatEquation.StepKeepsNonIncreasing` | main.py:27-31 | a stable step keeps a non-increasing profile non-increasing, including at both copied ends |
| `HeatEquation.IterateKeepsNonIncreasing` | main.py:26-32 | any number of stable steps keeps a non-increasing profile non-increasing |
| `HeatEquation.HistoryNonIncreasing` | main.py:19-33 | under stability every history entry decreases (weakly) from the hot end towards the far end |
| `HeatEquation.StepSpreadsOneCell` | main.py:28-31 | if the field is 0 beyond index j, one step leaves it 0 beyond index j+1 |
| `HeatEquation.IterateFinitePropagation` | main.py:19-32 | after k steps from the initial field, every index beyond k still holds 0 |
| `HeatEquation.HistoryFinitePropagation` | main.py:19-33 | history entry k is 0 at every index beyond k, for any r |
| `HeatEquation.ScriptFirstStep` | main.py:11-31 | with the script's constants the first step gives [100, 25, 0, ..., 0] |
| `HeatEquation.ScriptHistory` | main.py:10-33 | the script's history has 501 entries of 50 values, starts with the initial field, keeps 100 at index 0 and 0 at index 49, stays in [0, 100], is 0 beyond index k at step k and is non-increasing along the wire |
| `HeatSolver.CopyField` | main.py:27 | the copy is a fresh array with the same values |
| `HeatSolver.StepBuffered` | main.py:27-31 | writing the stencil into a fresh copy, indices 1 .. n-2 in order, while reading the untouched old array, yields exactly `Step` of the old field |
| `HeatSolver.InitialField` | main.py:19-20 | a fresh array of zeros with index 0 set to 100 holds exactly `Initial(nx)` |
| `HeatSolver.Simulate` | main.py:19-33 | the nested loop (copy, interior stencil, copy back, append) builds exactly `Run(Initial(nx), r, steps)` |
| `HeatSolver.RunScript` | main.py:10-33 | running the script's configuration gives exactly `ScriptHistory()`, i.e. `Run(Initial(50), 1/4, 500)`: 501 snapshots of 50 values, with 100 at index 0, 0 at index 49 and every value in [0, 100] |

## Left out

- Plotting, the heatmap, the colour bar, the animation, window display and GIF
  export (main.py:1-8 and 35-94): presentation through library calls. The
  elapsed-time label `i * dt` (main.py:80) is display-only.
- IEEE float64 rounding: the model computes in exact `real` arithmetic. No
  claim is made about bit-exact agreement with NumPy or about the bounds
  under rounding.
- HeatSolver.Simulate: the history holds value snapshots (`seq<real>`), not
  references to arrays. The script appends the array `temperature` and then
  rebinds that name to a fresh copy, so no appended array is changed later.
  Sharing between entries therefore cannot be observed, and the model does not
  represent it.
- `nx < 1`: with `nx = 0` the script raises ZeroDivisionError at
  `dx = length / nx` (main.py:13), and a negative `nx` makes `np.zeros`
  (main.py:19) raise ValueError. `Initial`, `InitialField` and `Simulate`
  require `nx >= 1` instead of modelling those errors. The script's `nx` is
  the constant 50.
- DiffusionNumber: requires `dx != 0.0` where the script, with `length = 0`,
  would raise ZeroDivisionError at `alpha * dt / dx ** 2` (main.py:30) as soon
  as the inner loop runs (nx >= 3 and at least one step). The script's `dx` is
  0.02.
- Configuration checks: apart from the Python errors above, the code does not
  validate its parameters and does not check the stability condition
  `r <= 1/2`. No such check is modelled. The stability condition appears only
  as a precondition of the bound and monotonicity lemmas, and
  `UnstableOvershoots` shows what goes wrong without it.
- A configurable hot-end temperature: the code uses the literal 100
  (main.py:20), and so does the model (`HotEnd`).
- The step loop's second copy (`temperature = new_temperature.copy()`,
  main.py:32) is modelled as a second `CopyField`. Its only effect is that the
  arrays stay separate objects.
