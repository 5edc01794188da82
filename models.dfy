/** Reflectivity models: a layered earth written as a trace of reflection
    coefficients placed at regular sample intervals. */
module Models {

  /** The gap between layers: the trace length divided by one more than the number
      of coefficients, rounded down. */
  function LayerSpacing(nSamples: nat, count: nat): (spacing: nat)
    ensures spacing * (count + 1) <= nSamples < (spacing + 1) * (count + 1)
  {
    nSamples / (count + 1)
  }

  /** Where coefficient i goes: (i + 1) * spacing. */
  function LayerPosition(i: nat, spacing: nat): nat {
    (i + 1) * spacing
  }

  lemma LayerPositionUnfold(i: nat, spacing: nat)
    ensures LayerPosition(i, spacing) == (i + 1) * spacing
  {
  }

  /** Sample p of the trace once the first `written` coefficients are placed with the
      given spacing: coefficient i sits at (i + 1) * spacing, a later one overwriting an
      earlier one at the same position; every other sample is 0. */
  function LayerValue(coefficients: seq<real>, spacing: nat, written: nat, p: nat): real
    requires written <= |coefficients|
  {
    if spacing == 0 then
      (if p == 0 && written > 0 then coefficients[written - 1] else 0.0)
    else if p % spacing == 0 && 1 <= p / spacing <= written then
      coefficients[p / spacing - 1]
    else
      0.0
  }

  lemma MulAtLeast(a: int, s: nat)
    requires a >= 1
    ensures a * s >= s
  {
  }

  lemma MulMonotone(a: nat, b: nat, s: nat)
    requires a <= b
    ensures a * s <= b * s
  {
  }

  /** Quotient and remainder are determined by p = q * s + r with 0 <= r < s. */
  lemma DivUnique(p: nat, s: nat, q: nat, r: nat)
    requires s >= 1 && r < s && p == q * s + r
    ensures p / s == q && p % s == r
  {
    var d := p / s;
    var m := p % s;
    assert p == d * s + m;
    assert (q - d) * s == m - r;
    if q > d {
      MulAtLeast(q - d, s);
    } else if q < d {
      MulAtLeast(d - q, s);
    }
  }

  lemma MultipleDivides(k: nat, spacing: nat)
    requires spacing >= 1
    ensures (k * spacing) % spacing == 0 && (k * spacing) / spacing == k
  {
    DivUnique(k * spacing, spacing, k, 0);
  }

  lemma DivModSplit(p: nat, spacing: nat)
    requires spacing >= 1
    ensures p == (p / spacing) * spacing + p % spacing
  {
  }

  /** Placing coefficient i changes exactly the sample at (i + 1) * spacing. */
  lemma LayerValueStep(coefficients: seq<real>, spacing: nat, i: nat, p: nat)
    requires i < |coefficients|
    ensures LayerValue(coefficients, spacing, i + 1, p)
         == if p == LayerPosition(i, spacing) then coefficients[i] else LayerValue(coefficients, spacing, i, p)
  {
    if spacing >= 1 {
      if p == LayerPosition(i, spacing) {
        MultipleDivides(i + 1, spacing);
      } else {
        DivModSplit(p, spacing);
      }
    }
  }

  /** `create_layered_reflectivity`: a zero trace of n samples, then coefficient i
      written at (i + 1) * spacing whenever that position lies inside the trace. */
  method CreateLayeredReflectivity(nSamples: nat, coefficients: seq<real>) returns (reflectivity: seq<real>)
    ensures |reflectivity| == nSamples
    ensures forall p :: 0 <= p < nSamples ==>
      reflectivity[p] == LayerValue(coefficients, LayerSpacing(nSamples, |coefficients|), |coefficients|, p)
  {
    var trace := new real[nSamples](_ => 0.0);
    var spacing := LayerSpacing(nSamples, |coefficients|);
    for i := 0 to |coefficients|
      invariant forall p :: 0 <= p < nSamples ==> trace[p] == LayerValue(coefficients, spacing, i, p)
    {
      ghost var before := trace[..];
      var position := LayerPosition(i, spacing);
      if position < nSamples {
        trace[position] := coefficients[i];
      }
      PlaceStep(before, trace[..], coefficients, spacing, i, position);
    }
    reflectivity := trace[..];
  }

  /** One turn of the placement loop keeps the trace equal to the closed form. */
  lemma PlaceStep(before: seq<real>, after: seq<real>, coefficients: seq<real>, spacing: nat, i: nat, position: nat)
    requires i < |coefficients| && |after| == |before| && position == LayerPosition(i, spacing)
    requires forall p :: 0 <= p < |before| ==> before[p] == LayerValue(coefficients, spacing, i, p)
    requires forall p :: 0 <= p < |after| ==> after[p] == if p == position then coefficients[i] else before[p]
    ensures forall p :: 0 <= p < |after| ==> after[p] == LayerValue(coefficients, spacing, i + 1, p)
  {
    forall p | 0 <= p < |after|
      ensures after[p] == LayerValue(coefficients, spacing, i + 1, p)
    {
      LayerValueStep(coefficients, spacing, i, p);
    }
  }

  /** The layers are spread out (spacing at least 1) exactly when the trace has more
      samples than there are coefficients. */
  lemma SpacingPositive(nSamples: nat, count: nat)
    ensures LayerSpacing(nSamples, count) >= 1 <==> nSamples >= count + 1
  {
    var s := LayerSpacing(nSamples, count);
    if s >= 1 {
      assert s * (count + 1) >= count + 1;
    }
  }

  /** With room for the layers, every coefficient is placed inside the trace and
      survives: sample (i + 1) * spacing holds coefficient i. */
  lemma CoefficientPlaced(nSamples: nat, coefficients: seq<real>, i: nat)
    requires nSamples >= |coefficients| + 1 && i < |coefficients|
    ensures LayerPosition(i, LayerSpacing(nSamples, |coefficients|)) < nSamples
    ensures LayerValue(coefficients, LayerSpacing(nSamples, |coefficients|), |coefficients|, LayerPosition(i, LayerSpacing(nSamples, |coefficients|)))
         == coefficients[i]
  {
    var s := LayerSpacing(nSamples, |coefficients|);
    SpacingPositive(nSamples, |coefficients|);
    MulMonotone(i + 1, |coefficients|, s);
    assert |coefficients| * s + s == s * (|coefficients| + 1) <= nSamples;
    MultipleDivides(i + 1, s);
  }

  /** With no room (fewer samples than layers plus one) every position is 0, so each
      coefficient overwrites the previous one and only the last remains, at sample 0. */
  lemma LayersCollapse(nSamples: nat, coefficients: seq<real>, p: nat)
    requires 1 <= nSamples <= |coefficients| && p < nSamples
    ensures LayerValue(coefficients, LayerSpacing(nSamples, |coefficients|), |coefficients|, p)
         == if p == 0 then coefficients[|coefficients| - 1] else 0.0
  {
    SpacingPositive(nSamples, |coefficients|);
  }

  /** With room for the layers, a sample that is no coefficient's position stays 0. */
  lemma ZeroBetweenLayers(nSamples: nat, coefficients: seq<real>, p: nat)
    requires nSamples >= |coefficients| + 1
    requires forall i :: 0 <= i < |coefficients| ==> p != LayerPosition(i, LayerSpacing(nSamples, |coefficients|))
    ensures LayerValue(coefficients, LayerSpacing(nSamples, |coefficients|), |coefficients|, p) == 0.0
  {
    var s := LayerSpacing(nSamples, |coefficients|);
    SpacingPositive(nSamples, |coefficients|);
    if p % s == 0 && 1 <= p / s <= |coefficients| {
      DivModSplit(p, s);
      LayerPositionUnfold(p / s - 1, s);
      assert false;
    }
  }

  /** Without coefficients the trace is silent: n samples, all 0. */
  method NoLayers(nSamples: nat) returns (reflectivity: seq<real>)
    ensures reflectivity == seq(nSamples, (p: nat) => 0.0)
  {
    reflectivity := CreateLayeredReflectivity(nSamples, []);
  }
}
