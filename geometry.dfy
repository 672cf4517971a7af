/**
 * Canvas geometry: the widest page fixes the canvas width, the page heights add up to
 * its height, and page i occupies the rows from the sum of the heights before it.
 */
module Geometry {

  /** A JavaScript number as `Math.max` can return it here: `-Infinity` for no arguments. */
  datatype MaxValue = NegativeInfinity | Finite(value: nat)

  /** `Math.max(...xs)`. */
  function MathMax(xs: seq<nat>): (m: MaxValue)
    ensures m.NegativeInfinity? <==> xs == []
    ensures m.Finite? ==> m.value in xs && forall x :: x in xs ==> x <= m.value
  {
    if xs == [] then NegativeInfinity
    else
      assert xs == [xs[0]] + xs[1..];
      var rest := MathMax(xs[1..]);
      if rest.Finite? && xs[0] < rest.value then rest else Finite(xs[0])
  }

  /** `xs.reduce((sum, x) => sum + x, 0)`: a left fold from 0. */
  function Sum(xs: seq<nat>): (r: nat)
    ensures xs != [] ==> xs[|xs| - 1] <= r
  {
    if xs == [] then 0 else Sum(xs[..|xs| - 1]) + xs[|xs| - 1]
  }

  /** No single height exceeds the total. */
  lemma {:induction false} EachBelowSum(xs: seq<nat>, i: nat)
    requires i < |xs|
    ensures xs[i] <= Sum(xs)
  {
    if i < |xs| - 1 {
      var init := xs[..|xs| - 1];
      assert init[i] == xs[i];
      EachBelowSum(init, i);
    }
  }

  /** The top row of band i: the sum of the heights of the bands before it. */
  function Top(hs: seq<nat>, i: nat): (r: nat)
    requires i <= |hs|
    ensures 0 < i ==> hs[i - 1] <= r
  {
    Sum(hs[..i])
  }

  /** Each band starts where the previous one ends, the first at row 0. */
  lemma BandsAreContiguous(hs: seq<nat>, i: nat)
    requires i < |hs|
    ensures Top(hs, 0) == 0
    ensures Top(hs, i) + hs[i] == Top(hs, i + 1)
  {
    assert hs[..i + 1][..i] == hs[..i];
  }

  /** The last band ends at the bottom of the canvas, the sum of all heights. */
  lemma LastBandEndsAtTotal(hs: seq<nat>)
    requires hs != []
    ensures Top(hs, |hs| - 1) + hs[|hs| - 1] == Sum(hs)
  {
    assert hs[..|hs|] == hs;
    BandsAreContiguous(hs, |hs| - 1);
  }

  lemma {:induction false} TopMonotone(hs: seq<nat>, i: nat, j: nat)
    requires i <= j <= |hs|
    ensures Top(hs, i) <= Top(hs, j)
  {
    if i < j {
      TopMonotone(hs, i, j - 1);
      BandsAreContiguous(hs, j - 1);
    }
  }

  /** A band ends no lower than the start of any later band: bands are ordered and disjoint. */
  lemma BandsAreOrdered(hs: seq<nat>, i: nat, j: nat)
    requires i < j < |hs|
    ensures Top(hs, i) + hs[i] <= Top(hs, j)
  {
    BandsAreContiguous(hs, i);
    TopMonotone(hs, i + 1, j);
  }

  /** Every band lies inside the canvas. */
  lemma BandInsideCanvas(hs: seq<nat>, i: nat)
    requires i < |hs|
    ensures Top(hs, i) + hs[i] <= Sum(hs)
  {
    BandsAreContiguous(hs, i);
    TopMonotone(hs, i + 1, |hs|);
    assert hs[..|hs|] == hs;
  }

  /** The band that covers row y of the canvas: the bands tile the whole height. */
  function BandOf(hs: seq<nat>, y: nat): (i: nat)
    requires y < Sum(hs)
    ensures i < |hs| && Top(hs, i) <= y < Top(hs, i) + hs[i]
  {
    var n := |hs| - 1;
    LastBandEndsAtTotal(hs);
    if Top(hs, n) <= y then n
    else
      var hs' := hs[..n];
      assert hs' == hs[..n] && Sum(hs') == Top(hs, n);
      var i := BandOf(hs', y);
      assert hs'[..i] == hs[..i];
      i
  }

  /** No row belongs to two bands. */
  lemma BandIsUnique(hs: seq<nat>, y: nat, i: nat, j: nat)
    requires i < |hs| && j < |hs|
    requires Top(hs, i) <= y < Top(hs, i) + hs[i]
    requires Top(hs, j) <= y < Top(hs, j) + hs[j]
    ensures i == j
  {
    if i < j {
      BandsAreOrdered(hs, i, j);
    } else if j < i {
      BandsAreOrdered(hs, j, i);
    }
  }

  /**
   * Three pages of widths 800, 1000, 900 and heights 1100, 1200, 1050 make a canvas of
   * 1000 by 3350, with the pages starting at rows 0, 1100 and 2300.
   */
  lemma ThreePageExample()
    ensures MathMax([800, 1000, 900]) == Finite(1000)
    ensures Sum([1100, 1200, 1050]) == 3350
    ensures Top([1100, 1200, 1050], 1) == 1100 && Top([1100, 1200, 1050], 2) == 2300
  {
    var ws: seq<nat> := [800, 1000, 900];
    assert ws[1..] == [1000, 900] && ws[1..][1..] == [900];
    var hs: seq<nat> := [1100, 1200, 1050];
    assert hs[..1] == [1100] && hs[..1][..0] == [];
    assert hs[..2] == [1100, 1200] && hs[..2][..1] == [1100];
    assert hs[..3] == hs && hs[..2] == hs[..|hs| - 1];
    assert Sum(hs[..1]) == 1100;
    assert Sum(hs[..2]) == 2300;
  }
}
