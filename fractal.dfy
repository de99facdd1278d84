/**
 * The Julia-set renderer (fractal_generator_app.py): an n-by-m grid of
 * iterates updated in place where a boolean mask is still set, an escape-count
 * grid written when a point escapes, and the normalisation into brightness.
 *
 * The complex arithmetic is abstract: `step` stands for `z := z*z + c` with the
 * frame's fixed `c`, and `escaped` for the test `|z| > 2`.
 */
module Fractal {
  import opened Wrappers

  /** `step` applied `k` times to `z0`. */
  function Orbit<Z>(step: Z -> Z, z0: Z, k: nat): Z
    decreases k
  {
    if k == 0 then z0 else step(Orbit(step, z0, k - 1))
  }

  /** Iteration `i` (0-based) tests the iterate reached after `i + 1` steps. */
  predicate EscapesAt<Z>(step: Z -> Z, escaped: Z -> bool, z0: Z, i: nat) {
    escaped(Orbit(step, z0, i + 1))
  }

  /** The least iteration in `[from, budget)` at which the orbit of `z0` escapes, if any. */
  function FirstEscapeFrom<Z>(step: Z -> Z, escaped: Z -> bool, z0: Z, from: nat, budget: nat): (r: Option<nat>)
    ensures r.Some? ==> && from <= r.value < budget
                        && EscapesAt(step, escaped, z0, r.value)
                        && forall j :: from <= j < r.value ==> !EscapesAt(step, escaped, z0, j)
    ensures r.None? ==> forall j :: from <= j < budget ==> !EscapesAt(step, escaped, z0, j)
    decreases budget - from
  {
    if from >= budget then None
    else if EscapesAt(step, escaped, z0, from) then Some(from)
    else FirstEscapeFrom(step, escaped, z0, from + 1, budget)
  }

  /** The least iteration below `budget` at which the orbit of `z0` escapes, if any. */
  function FirstEscape<Z>(step: Z -> Z, escaped: Z -> bool, z0: Z, budget: nat): (r: Option<nat>)
    ensures r.Some? ==> && r.value < budget
                        && EscapesAt(step, escaped, z0, r.value)
                        && forall j :: 0 <= j < r.value ==> !EscapesAt(step, escaped, z0, j)
    ensures r.None? ==> forall j :: 0 <= j < budget ==> !EscapesAt(step, escaped, z0, j)
  {
    FirstEscapeFrom(step, escaped, z0, 0, budget)
  }

  /** The escape count a point should end with: its first escape iteration, or 0 if it never escaped. */
  function EscapeCount<Z>(step: Z -> Z, escaped: Z -> bool, z0: Z, budget: nat): (n: nat)
    ensures budget > 0 ==> n < budget
    ensures n > 0 ==> FirstEscape(step, escaped, z0, budget) == Some(n)
  {
    match FirstEscape(step, escaped, z0, budget)
    case Some(i) => i
    case None => 0
  }

  /** The state of one grid point: its iterate `z[p]`, its mask bit `m_matrix[p]`
      and its escape count `n_matrix[p]`. */
  datatype Point<Z> = Point(z: Z, active: bool, count: int)

  /** What iteration `i` of the loop does to one grid point. */
  function Advance<Z>(step: Z -> Z, escaped: Z -> bool, p: Point<Z>, i: nat): (q: Point<Z>)
    ensures !p.active ==> q == p
    ensures q.active ==> p.active
    ensures p.active ==> q.z == step(p.z) && (q.active <==> !escaped(q.z))
    ensures q.count != p.count ==> p.active && !q.active && q.count == i
    ensures p.active && !q.active ==> q.count == i
  {
    var z := if p.active then step(p.z) else p.z;
    var newlyEscaped := escaped(z);
    Point(z, p.active && !newlyEscaped, if p.active && newlyEscaped then i else p.count)
  }

  /** The state of a point that starts at `z0`, after `k` iterations of the loop. */
  function After<Z>(step: Z -> Z, escaped: Z -> bool, z0: Z, k: nat): Point<Z>
    decreases k
  {
    if k == 0 then Point(z0, true, 0)
    else Advance(step, escaped, After(step, escaped, z0, k - 1), k - 1)
  }

  /** One more iteration either keeps a first escape already found or finds one at the new iteration. */
  lemma FirstEscapeExtend<Z>(step: Z -> Z, escaped: Z -> bool, z0: Z, k: nat)
    ensures FirstEscape(step, escaped, z0, k + 1) ==
      match FirstEscape(step, escaped, z0, k)
      case Some(i) => Some(i)
      case None => if EscapesAt(step, escaped, z0, k) then Some(k) else None
  {
  }

  /** The loop computes, for every point, the closed form: a point that never
      escaped is still active, has been stepped `k` times and has count 0; one
      that first escaped at iteration `i` is inactive, was frozen at the iterate
      where it escaped, and has count `i`. */
  lemma {:induction false} AfterIsFirstEscape<Z>(step: Z -> Z, escaped: Z -> bool, z0: Z, k: nat)
    ensures var p := After(step, escaped, z0, k);
      match FirstEscape(step, escaped, z0, k)
      case None => p == Point(Orbit(step, z0, k), true, 0)
      case Some(i) => p == Point(Orbit(step, z0, i + 1), false, i)
    decreases k
  {
    if k > 0 {
      AfterIsFirstEscape(step, escaped, z0, k - 1);
      FirstEscapeExtend(step, escaped, z0, k - 1);
    }
  }

  /** The mask only shrinks: a point active after `k2` iterations was active after any `k1 <= k2`. */
  lemma {:induction false} MaskShrinks<Z>(step: Z -> Z, escaped: Z -> bool, z0: Z, k1: nat, k2: nat)
    requires k1 <= k2
    ensures After(step, escaped, z0, k2).active ==> After(step, escaped, z0, k1).active
    decreases k2 - k1
  {
    if k1 < k2 {
      MaskShrinks(step, escaped, z0, k1, k2 - 1);
    }
  }

  /** Inactive points are frozen: once a point's mask bit is cleared, its iterate
      and its count are never written again. */
  lemma {:induction false} InactiveFrozen<Z>(step: Z -> Z, escaped: Z -> bool, z0: Z, k1: nat, k2: nat)
    requires k1 <= k2
    requires !After(step, escaped, z0, k1).active
    ensures After(step, escaped, z0, k2) == After(step, escaped, z0, k1)
    decreases k2 - k1
  {
    if k1 < k2 {
      InactiveFrozen(step, escaped, z0, k1, k2 - 1);
    }
  }

  /** A larger iteration budget does not change an escape already found. */
  lemma FirstEscapeStable<Z>(step: Z -> Z, escaped: Z -> bool, z0: Z, k1: nat, k2: nat)
    requires k1 <= k2
    requires FirstEscape(step, escaped, z0, k1).Some?
    ensures FirstEscape(step, escaped, z0, k2) == FirstEscape(step, escaped, z0, k1)
  {
  }

  /** After the loop every count lies in `[0, iterations - 1]`; a count of 0 means
      the point escaped at the first iteration or never escaped at all. */
  lemma CountBounds<Z>(step: Z -> Z, escaped: Z -> bool, z0: Z, k: nat)
    ensures var n := After(step, escaped, z0, k).count;
      && 0 <= n
      && (k > 0 ==> n < k)
      && (n == 0 <==> FirstEscape(step, escaped, z0, k) in {None, Some(0)})
  {
    AfterIsFirstEscape(step, escaped, z0, k);
  }

  /** `m_matrix = np.full((n, m), True)` and `n_matrix = np.zeros((n, m))`. */
  method NewMaskAndCounts(n: nat, m: nat) returns (mask: array2<bool>, counts: array2<int>)
    ensures fresh(mask) && fresh(counts)
    ensures mask.Length0 == counts.Length0 == n && mask.Length1 == counts.Length1 == m
    ensures forall r, c :: 0 <= r < n && 0 <= c < m ==> mask[r, c] && counts[r, c] == 0
  {
    mask := new bool[n, m]((_, _) => true);
    counts := new int[n, m]((_, _) => 0);
  }

  /** `z[mask] = step(z[mask])`: the iterate advances exactly where the mask is set. */
  method MaskedStep<Z>(z: array2<Z>, mask: array2<bool>, step: Z -> Z)
    requires mask.Length0 == z.Length0 && mask.Length1 == z.Length1
    requires mask as object != z as object
    modifies z
    ensures forall r, c :: 0 <= r < z.Length0 && 0 <= c < z.Length1 ==>
      z[r, c] == if mask[r, c] then step(old(z[r, c])) else old(z[r, c])
  {
    forall r, c | 0 <= r < z.Length0 && 0 <= c < z.Length1 && mask[r, c] {
      z[r, c] := step(z[r, c]);
    }
  }

  /** `np.abs(z) > 2`, elementwise over the whole grid. */
  method EscapeTest<Z>(z: array2<Z>, escaped: Z -> bool) returns (newly: array2<bool>)
    ensures fresh(newly) && newly.Length0 == z.Length0 && newly.Length1 == z.Length1
    ensures forall r, c :: 0 <= r < z.Length0 && 0 <= c < z.Length1 ==> newly[r, c] == escaped(z[r, c])
  {
    newly := new bool[z.Length0, z.Length1];
    forall r, c | 0 <= r < z.Length0 && 0 <= c < z.Length1 {
      newly[r, c] := escaped(z[r, c]);
    }
  }

  /** `a & b`, elementwise. */
  method And(a: array2<bool>, b: array2<bool>) returns (both: array2<bool>)
    requires a.Length0 == b.Length0 && a.Length1 == b.Length1
    ensures fresh(both) && both.Length0 == a.Length0 && both.Length1 == a.Length1
    ensures forall r, c :: 0 <= r < a.Length0 && 0 <= c < a.Length1 ==> both[r, c] == (a[r, c] && b[r, c])
  {
    both := new bool[a.Length0, a.Length1];
    forall r, c | 0 <= r < a.Length0 && 0 <= c < a.Length1 {
      both[r, c] := a[r, c] && b[r, c];
    }
  }

  /** `counts[where] = i`. */
  method AssignWhere(counts: array2<int>, where: array2<bool>, i: int)
    requires where.Length0 == counts.Length0 && where.Length1 == counts.Length1
    modifies counts
    ensures forall r, c :: 0 <= r < counts.Length0 && 0 <= c < counts.Length1 ==>
      counts[r, c] == if where[r, c] then i else old(counts[r, c])
  {
    forall r, c | 0 <= r < counts.Length0 && 0 <= c < counts.Length1 && where[r, c] {
      counts[r, c] := i;
    }
  }

  /** `mask[where] = False`. */
  method ClearWhere(mask: array2<bool>, where: array2<bool>)
    requires where.Length0 == mask.Length0 && where.Length1 == mask.Length1
    requires where != mask
    modifies mask
    ensures forall r, c :: 0 <= r < mask.Length0 && 0 <= c < mask.Length1 ==>
      mask[r, c] == (old(mask[r, c]) && !where[r, c])
  {
    forall r, c | 0 <= r < mask.Length0 && 0 <= c < mask.Length1 && where[r, c] {
      mask[r, c] := false;
    }
  }

  /** One iteration `i` of the loop body, on the whole grid at once: the masked
      update of `z`, the escape test, the count written for points that were
      active and escaped, and the clearing of their mask bits. */
  method Iteration<Z>(z: array2<Z>, mask: array2<bool>, counts: array2<int>, i: nat,
                      step: Z -> Z, escaped: Z -> bool)
    requires mask.Length0 == counts.Length0 == z.Length0 && mask.Length1 == counts.Length1 == z.Length1
    requires mask as object != z as object && counts as object != z as object
    modifies z, mask, counts
    ensures forall r, c :: 0 <= r < z.Length0 && 0 <= c < z.Length1 ==>
      Point(z[r, c], mask[r, c], counts[r, c])
        == Advance(step, escaped, Point(old(z[r, c]), old(mask[r, c]), old(counts[r, c])), i)
  {
    MaskedStep(z, mask, step);
    var newlyEscaped := EscapeTest(z, escaped);
    var escapedNow := And(mask, newlyEscaped);
    AssignWhere(counts, escapedNow, i);
    ClearWhere(mask, newlyEscaped);
  }

  /** The masked escape-time loop over the grid `z` (updated in place), run
      `iterations` times. Every point ends in the state `After` gives, which
      is the first-escape closed form. */
  method Render<Z>(z: array2<Z>, iterations: nat, step: Z -> Z, escaped: Z -> bool)
      returns (mask: array2<bool>, counts: array2<int>)
    modifies z
    ensures fresh(mask) && fresh(counts)
    ensures mask.Length0 == counts.Length0 == z.Length0 && mask.Length1 == counts.Length1 == z.Length1
    ensures forall r, c :: 0 <= r < z.Length0 && 0 <= c < z.Length1 ==>
      Point(z[r, c], mask[r, c], counts[r, c]) == After(step, escaped, old(z[r, c]), iterations)
    ensures forall r, c :: 0 <= r < z.Length0 && 0 <= c < z.Length1 ==>
      && mask[r, c] == FirstEscape(step, escaped, old(z[r, c]), iterations).None?
      && counts[r, c] == EscapeCount(step, escaped, old(z[r, c]), iterations)
  {
    var n, m := z.Length0, z.Length1;
    mask, counts := NewMaskAndCounts(n, m);
    for i := 0 to iterations
      invariant forall r, c :: 0 <= r < n && 0 <= c < m ==>
        Point(z[r, c], mask[r, c], counts[r, c]) == After(step, escaped, old(z[r, c]), i)
    {
      Iteration(z, mask, counts, i, step, escaped);
    }
    forall r, c | 0 <= r < n && 0 <= c < m
      ensures mask[r, c] == FirstEscape(step, escaped, old(z[r, c]), iterations).None?
      ensures counts[r, c] == EscapeCount(step, escaped, old(z[r, c]), iterations)
    {
      AfterIsFirstEscape(step, escaped, old(z[r, c]), iterations);
    }
  }

  /** The largest of `a[r, 0..cols]`. */
  function RowMax(a: array2<int>, r: nat, cols: nat): (mx: int)
    reads a
    requires r < a.Length0 && 0 < cols <= a.Length1
    ensures forall c :: 0 <= c < cols ==> a[r, c] <= mx
    ensures exists c :: 0 <= c < cols && a[r, c] == mx
    decreases cols
  {
    if cols == 1 then a[r, 0]
    else
      var rest := RowMax(a, r, cols - 1);
      if a[r, cols - 1] > rest then a[r, cols - 1] else rest
  }

  /** The largest entry in the first `rows` rows of `a`. */
  function RowsMax(a: array2<int>, rows: nat): (mx: int)
    reads a
    requires 0 < rows <= a.Length0 && 0 < a.Length1
    ensures forall r, c :: 0 <= r < rows && 0 <= c < a.Length1 ==> a[r, c] <= mx
    ensures exists r, c :: 0 <= r < rows && 0 <= c < a.Length1 && a[r, c] == mx
    decreases rows
  {
    var last := RowMax(a, rows - 1, a.Length1);
    if rows == 1 then last
    else
      var rest := RowsMax(a, rows - 1);
      if last > rest then last else rest
  }

  /** `n_matrix.max()`: the largest count on a non-empty grid. */
  function GridMax(a: array2<int>): (mx: int)
    reads a
    requires 0 < a.Length0 && 0 < a.Length1
    ensures forall r, c :: 0 <= r < a.Length0 && 0 <= c < a.Length1 ==> a[r, c] <= mx
    ensures exists r, c :: 0 <= r < a.Length0 && 0 <= c < a.Length1 && a[r, c] == mx
  {
    RowsMax(a, a.Length0)
  }

  /** `1 - count / (max + 1)`: the brightness of a point, computed over the reals.
      For a count between 0 and the maximum it lies in (0, 1]; the `+ 1` keeps the
      denominator positive even when every count is 0. */
  function Brightness(count: int, max: int): (b: real)
    requires max >= 0
    ensures 0 <= count <= max ==> 0.0 < b <= 1.0
    ensures count == 0 <==> b == 1.0
  {
    1.0 - count as real / (max as real + 1.0)
  }

  /** Later escapes are drawn darker. */
  lemma BrightnessDarkens(count1: int, count2: int, max: int)
    requires max >= 0 && count1 <= count2
    ensures Brightness(count2, max) <= Brightness(count1, max)
  {
    var d := max as real + 1.0;
    assert (count2 as real - count1 as real) / d >= 0.0;
    assert count2 as real / d - count1 as real / d == (count2 as real - count1 as real) / d;
  }

  /** `color_data = 1.0 - (n_matrix / (n_matrix.max() + 1))` on a non-empty grid of non-negative counts. */
  method Normalise(counts: array2<int>) returns (color: array2<real>)
    requires 0 < counts.Length0 && 0 < counts.Length1
    requires forall r, c :: 0 <= r < counts.Length0 && 0 <= c < counts.Length1 ==> counts[r, c] >= 0
    ensures fresh(color) && color.Length0 == counts.Length0 && color.Length1 == counts.Length1
    ensures GridMax(counts) >= 0
    ensures forall r, c :: 0 <= r < counts.Length0 && 0 <= c < counts.Length1 ==>
      color[r, c] == Brightness(counts[r, c], GridMax(counts)) && 0.0 < color[r, c] <= 1.0
  {
    var max := GridMax(counts);
    color := new real[counts.Length0, counts.Length1];
    forall r, c | 0 <= r < counts.Length0 && 0 <= c < counts.Length1 {
      color[r, c] := Brightness(counts[r, c], max);
    }
  }

  /** The whole frame: run the escape-time loop on the start grid `z`, then map
      counts to brightness. Each pixel is the brightness of the point's escape count
      (so, by `BrightnessDarkens`, a later escape is never brighter), and a point
      that never escaped is drawn at full brightness. */
  method JuliaImage<Z>(z: array2<Z>, iterations: nat, step: Z -> Z, escaped: Z -> bool)
      returns (counts: array2<int>, color: array2<real>)
    requires 0 < z.Length0 && 0 < z.Length1
    modifies z
    ensures fresh(counts) && counts.Length0 == z.Length0 && counts.Length1 == z.Length1
    ensures fresh(color) && color.Length0 == z.Length0 && color.Length1 == z.Length1
    ensures forall r, c :: 0 <= r < z.Length0 && 0 <= c < z.Length1 ==>
      && counts[r, c] == EscapeCount(step, escaped, old(z[r, c]), iterations)
      && color[r, c] == Brightness(counts[r, c], GridMax(counts))
      && 0.0 < color[r, c] <= 1.0
      && (FirstEscape(step, escaped, old(z[r, c]), iterations).None? ==> color[r, c] == 1.0)
  {
    var mask;
    mask, counts := Render(z, iterations, step, escaped);
    color := Normalise(counts);
  }
}
