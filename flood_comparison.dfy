/** The flood-extent comparison of floodcomparison/core.py: an observed flood
    mask is compared with a modelled water-depth raster inside a buffer around
    the observed flood, giving a contingency table (a, b, c, d) and four scores
    (hit rate H, false alarm ratio F, critical success index C, bias B).

    Every stage is an element-wise rule over rasters of one shape, so each is a
    function here; the counts are sums of binary masks. */
module FloodComparison {
  import opened Raster

  datatype Option<T> = None | Some(value: T)

  /** The one failure the comparison reports: the two input rasters differ in size. */
  datatype Error = DimensionMismatch

  datatype Result<T> = Ok(value: T) | Err(error: Error)

  /** The contingency counts, named as in the source: a = sum of TP,
      b = sum of FP, c = sum of TN, d = sum of FN. */
  datatype Counts = Counts(a: nat, b: nat, c: nat, d: nat)

  /** A score is None where its denominator is 0 (NumPy would give nan or inf). */
  datatype Scores = Scores(
    hitRate: Option<real>,
    falseAlarmRatio: Option<real>,
    criticalSuccessIndex: Option<real>,
    bias: Option<real>)

  /** What one comparison produces: the rasters written as buff.tif, mask.tif
      and aggr.tif, the counts and the four scores. */
  datatype Outcome = Outcome(buff: Grid<int>, mask: Grid<int>, aggr: Grid<int>, counts: Counts, scores: Scores)

  /** The sum of a binary mask, as a count of its wet cells. */
  function Count(g: Grid<int>): (n: nat)
    requires Binary(g)
    ensures n == Total(g) && n == Occurrences(g, 1)
  {
    TotalOfBinary(g);
    Total(g)
  }

  // ---------------------------------------------------------------------
  // Stages of the pipeline
  // ---------------------------------------------------------------------

  /** Buffer mask from the proximity raster: 1 where the distance is
      non-negative, 0 elsewhere, so the -9999 no-data sentinel and every other
      negative value are outside the buffer. */
  function BufferMask(dist: Grid<real>): (buff: Grid<int>)
    ensures SameShape(buff, dist) && Binary(buff)
    ensures forall i, j :: 0 <= i < |dist| && 0 <= j < |dist[i]| ==>
              (buff[i][j] == 1 <==> dist[i][j] >= 0.0)
  {
    seq(|dist|, i requires 0 <= i < |dist| =>
      seq(|dist[i]|, j requires 0 <= j < |dist[i]| => if dist[i][j] >= 0.0 then 1 else 0))
  }

  /** The modelled depth clipped to the buffer: unchanged inside it, 0 outside. */
  function ClipDepth(buff: Grid<int>, mod: Grid<real>): (nmod: Grid<real>)
    requires SameShape(buff, mod)
    ensures SameShape(nmod, mod)
    ensures forall i, j :: 0 <= i < |mod| && 0 <= j < |mod[i]| && buff[i][j] == 1 ==> nmod[i][j] == mod[i][j]
    ensures forall i, j :: 0 <= i < |mod| && 0 <= j < |mod[i]| && buff[i][j] != 1 ==> nmod[i][j] == 0.0
  {
    seq(|mod|, i requires 0 <= i < |mod| =>
      seq(|mod[i]|, j requires 0 <= j < |mod[i]| => if buff[i][j] == 1 then mod[i][j] else 0.0))
  }

  /** The modelled wet mask: 1 exactly where the clipped depth is strictly
      above the threshold, so a depth equal to the threshold is dry. */
  function WetMask(nmod: Grid<real>, thresh: real): (mask: Grid<int>)
    ensures SameShape(mask, nmod) && Binary(mask)
    ensures forall i, j :: 0 <= i < |nmod| && 0 <= j < |nmod[i]| ==>
              (mask[i][j] == 1 <==> nmod[i][j] > thresh)
  {
    seq(|nmod|, i requires 0 <= i < |nmod| =>
      seq(|nmod[i]|, j requires 0 <= j < |nmod[i]| => if nmod[i][j] > thresh then 1 else 0))
  }

  /** The source's intersection idiom `np.where((x+y)==2,1,0)`: 1 where the two
      cells add up to 2. On binary masks that is "both are 1". */
  function Both(x: Grid<int>, y: Grid<int>): (r: Grid<int>)
    requires SameShape(x, y)
    ensures SameShape(r, x) && Binary(r)
    ensures forall i, j :: 0 <= i < |x| && 0 <= j < |x[i]| ==> (r[i][j] == 1 <==> x[i][j] + y[i][j] == 2)
    ensures Binary(x) && Binary(y) ==>
              forall i, j :: 0 <= i < |x| && 0 <= j < |x[i]| ==> (r[i][j] == 1 <==> x[i][j] == 1 && y[i][j] == 1)
  {
    seq(|x|, i requires 0 <= i < |x| =>
      seq(|x[i]|, j requires 0 <= j < |x[i]| => if x[i][j] + y[i][j] == 2 then 1 else 0))
  }

  /** The dry complement of a wet mask, restricted to the buffer: 1 where the
      cell is in the buffer and not wet (not equal to 1), 0 elsewhere. */
  function DryMask(buff: Grid<int>, wet: Grid<int>): (dry: Grid<int>)
    requires SameShape(buff, wet)
    ensures SameShape(dry, wet) && Binary(dry)
    ensures forall i, j :: 0 <= i < |wet| && 0 <= j < |wet[i]| ==>
              (dry[i][j] == 1 <==> buff[i][j] == 1 && wet[i][j] != 1)
    ensures Binary(wet) ==>
              forall i, j :: 0 <= i < |wet| && 0 <= j < |wet[i]| && buff[i][j] == 1 ==> dry[i][j] == 1 - wet[i][j]
  {
    seq(|wet|, i requires 0 <= i < |wet| =>
      seq(|wet[i]|, j requires 0 <= j < |wet[i]| =>
        if buff[i][j] == 1 then (if wet[i][j] == 1 then 0 else 1) else 0))
  }

  // ---------------------------------------------------------------------
  // The four buckets, named as in the source
  // ---------------------------------------------------------------------

  /** TP: observed wet and modelled wet. */
  function TP(obs: Grid<int>, mask: Grid<int>): (tp: Grid<int>)
    requires SameShape(obs, mask)
    ensures SameShape(tp, obs) && Binary(tp)
    ensures Binary(obs) && Binary(mask) ==>
              forall i, j :: 0 <= i < |obs| && 0 <= j < |obs[i]| ==> (tp[i][j] == 1 <==> obs[i][j] == 1 && mask[i][j] == 1)
  {
    Both(obs, mask)
  }

  /** FP: observed dry inside the buffer, modelled wet. */
  function FP(obs: Grid<int>, buff: Grid<int>, mask: Grid<int>): (fp: Grid<int>)
    requires SameShape(obs, buff) && SameShape(obs, mask)
    ensures SameShape(fp, obs) && Binary(fp)
    ensures Binary(mask) ==>
              forall i, j :: 0 <= i < |obs| && 0 <= j < |obs[i]| ==>
                (fp[i][j] == 1 <==> buff[i][j] == 1 && obs[i][j] != 1 && mask[i][j] == 1)
  {
    Both(DryMask(buff, obs), mask)
  }

  /** TN as the source names it: observed WET and modelled dry inside the
      buffer (conventionally a miss). Its sum c feeds H, C and B. */
  function TN(obs: Grid<int>, buff: Grid<int>, mask: Grid<int>): (tn: Grid<int>)
    requires SameShape(obs, buff) && SameShape(obs, mask)
    ensures SameShape(tn, obs) && Binary(tn)
    ensures Binary(obs) ==>
              forall i, j :: 0 <= i < |obs| && 0 <= j < |obs[i]| ==>
                (tn[i][j] == 1 <==> obs[i][j] == 1 && buff[i][j] == 1 && mask[i][j] != 1)
  {
    Both(obs, DryMask(buff, mask))
  }

  /** FN as the source names it: observed dry and modelled dry inside the
      buffer (conventionally a correct negative). Its sum d feeds no score. */
  function FN(obs: Grid<int>, buff: Grid<int>, mask: Grid<int>): (fn: Grid<int>)
    requires SameShape(obs, buff) && SameShape(obs, mask)
    ensures SameShape(fn, obs) && Binary(fn)
    ensures forall i, j :: 0 <= i < |obs| && 0 <= j < |obs[i]| ==>
              (fn[i][j] == 1 <==> buff[i][j] == 1 && obs[i][j] != 1 && mask[i][j] != 1)
  {
    Both(DryMask(buff, obs), DryMask(buff, mask))
  }

  /** The contingency counts of an observed raster against a wet mask within a buffer. */
  function Tabulate(obs: Grid<int>, buff: Grid<int>, mask: Grid<int>): (k: Counts)
    requires SameShape(obs, buff) && SameShape(obs, mask)
    ensures k.a == Occurrences(TP(obs, mask), 1) && k.b == Occurrences(FP(obs, buff, mask), 1)
    ensures k.c == Occurrences(TN(obs, buff, mask), 1) && k.d == Occurrences(FN(obs, buff, mask), 1)
  {
    Counts(Count(TP(obs, mask)), Count(FP(obs, buff, mask)), Count(TN(obs, buff, mask)), Count(FN(obs, buff, mask)))
  }

  // ---------------------------------------------------------------------
  // Scores
  // ---------------------------------------------------------------------

  /** H = a / (a + c). */
  function HitRate(a: nat, c: nat): (h: Option<real>)
    ensures h.Some? <==> a + c > 0
    ensures h.Some? ==> 0.0 <= h.value <= 1.0
    ensures h.Some? ==> (h.value == 1.0 <==> c == 0) && (h.value == 0.0 <==> a == 0)
  {
    if a + c == 0 then None else Some(a as real / (a + c) as real)
  }

  /** F = b / (a + b). */
  function FalseAlarmRatio(a: nat, b: nat): (f: Option<real>)
    ensures f.Some? <==> a + b > 0
    ensures f.Some? ==> 0.0 <= f.value <= 1.0
    ensures f.Some? ==> (f.value == 0.0 <==> b == 0) && (f.value == 1.0 <==> a == 0)
  {
    if a + b == 0 then None else Some(b as real / (a + b) as real)
  }

  /** C = a / (a + b + c). */
  function CriticalSuccessIndex(a: nat, b: nat, c: nat): (csi: Option<real>)
    ensures csi.Some? <==> a + b + c > 0
    ensures csi.Some? ==> 0.0 <= csi.value <= 1.0
    ensures csi.Some? ==> (csi.value == 1.0 <==> b + c == 0) && (csi.value == 0.0 <==> a == 0)
  {
    if a + b + c == 0 then None else Some(a as real / (a + b + c) as real)
  }

  /** B = (a + b) / (a + c) - 1: zero is best, positive is overprediction,
      negative is underprediction. */
  function Bias(a: nat, b: nat, c: nat): (bias: Option<real>)
    ensures bias.Some? <==> a + c > 0
    ensures bias.Some? ==> bias.value >= -1.0 && (bias.value == -1.0 <==> a + b == 0)
    ensures bias.Some? ==> (bias.value == 0.0 <==> b == c)
    ensures bias.Some? ==> (bias.value > 0.0 <==> b > c) && (bias.value < 0.0 <==> b < c)
  {
    if a + c == 0 then None
    else
      var q := (a + b) as real / (a + c) as real;
      assert q * (a + c) as real == (a + b) as real;
      assert (q - 1.0) * (a + c) as real == (b - c) as real;
      Some(q - 1.0)
  }

  /** A non-negative numerator over a larger positive denominator gives a smaller ratio. */
  lemma RatioAntitone(x: real, y: real, z: real)
    requires x >= 0.0 && 0.0 < y <= z
    ensures x / z <= x / y
  {
    assert x / z * z == x && x / y * y == x;
    assert x / z * y <= x / z * z;
  }

  /** The four scores of one count table. Each is defined exactly when its
      denominator is positive. The critical success index never exceeds the
      hit rate nor the share of modelled wet cells that are hits, and when
      there is a hit the bias is B = H / (1 - F) - 1. */
  function Score(k: Counts): (s: Scores)
    ensures s.hitRate.Some? <==> k.a + k.c > 0
    ensures s.falseAlarmRatio.Some? <==> k.a + k.b > 0
    ensures s.criticalSuccessIndex.Some? <==> k.a + k.b + k.c > 0
    ensures s.bias.Some? <==> k.a + k.c > 0
    ensures s.hitRate.Some? ==> s.criticalSuccessIndex.Some? && s.criticalSuccessIndex.value <= s.hitRate.value
    ensures s.falseAlarmRatio.Some? ==>
              s.criticalSuccessIndex.Some? && s.criticalSuccessIndex.value <= 1.0 - s.falseAlarmRatio.value
    ensures k.a > 0 ==>
              (s.falseAlarmRatio.value < 1.0 && s.bias.value == s.hitRate.value / (1.0 - s.falseAlarmRatio.value) - 1.0)
  {
    CsiBelowHitRate(k.a, k.b, k.c);
    CsiBelowPrecision(k.a, k.b, k.c);
    if k.a > 0 then BiasFromScores(k.a, k.b, k.c); Scores(HitRate(k.a, k.c), FalseAlarmRatio(k.a, k.b), CriticalSuccessIndex(k.a, k.b, k.c), Bias(k.a, k.b, k.c))
    else Scores(HitRate(k.a, k.c), FalseAlarmRatio(k.a, k.b), CriticalSuccessIndex(k.a, k.b, k.c), Bias(k.a, k.b, k.c))
  }

  lemma CsiBelowHitRate(a: nat, b: nat, c: nat)
    ensures HitRate(a, c).Some? ==> CriticalSuccessIndex(a, b, c).value <= HitRate(a, c).value
  {
    if a + c > 0 {
      RatioAntitone(a as real, (a + c) as real, (a + b + c) as real);
    }
  }

  lemma CsiBelowPrecision(a: nat, b: nat, c: nat)
    ensures FalseAlarmRatio(a, b).Some? ==> CriticalSuccessIndex(a, b, c).value <= 1.0 - FalseAlarmRatio(a, b).value
  {
    if a + b > 0 {
      RatioAntitone(a as real, (a + b) as real, (a + b + c) as real);
      OneMinusFalseAlarm(a, b);
    }
  }

  lemma OneMinusFalseAlarm(a: nat, b: nat)
    requires a + b > 0
    ensures 1.0 - FalseAlarmRatio(a, b).value == a as real / (a + b) as real
  {
    var y := (a + b) as real;
    var f, p := b as real / y, a as real / y;
    assert f * y == b as real && p * y == a as real;
    assert (f + p) * y == f * y + p * y;
    assert (f + p - 1.0) * y == 0.0;
    assert f + p == 1.0;
  }

  lemma BiasFromScores(a: nat, b: nat, c: nat)
    requires a > 0
    ensures FalseAlarmRatio(a, b).value < 1.0
    ensures Bias(a, b, c).value == HitRate(a, c).value / (1.0 - FalseAlarmRatio(a, b).value) - 1.0
  {
    OneMinusFalseAlarm(a, b);
    BiasFromHitAndFalseAlarm(a, b, c);
  }

  /** With a > 0, (a + b) / (a + c) equals (a / (a + c)) / (a / (a + b)). */
  lemma BiasFromHitAndFalseAlarm(a: nat, b: nat, c: nat)
    requires a > 0
    ensures (a + b) as real / (a + c) as real == (a as real / (a + c) as real) / (a as real / (a + b) as real)
  {
    var x, y, z := a as real, (a + b) as real, (a + c) as real;
    var h, g := x / z, x / y;
    assert h * z == x && g * y == x;
    assert g > 0.0;
    assert h / g * g == h;
    assert h / g * x == h * y by {
      calc {
        h / g * x;
        h / g * (g * y);
        (h / g * g) * y;
        h * y;
      }
    }
    assert h * y * z == x * y;
    assert h / g * x * z == x * y;
    assert h / g * z == y;
  }

  // ---------------------------------------------------------------------
  // The whole comparison
  // ---------------------------------------------------------------------

  /** Compares the observed raster `obs` with the modelled depth raster `mod`.
      `dist` is the proximity raster computed from `obs` by the external
      distance tool, so it has the shape of `obs`. Rasters whose row or column
      counts differ are refused before anything else is computed. */
  function Compare(obs: Grid<int>, mod: Grid<real>, dist: Grid<real>, thresh: real): (r: Result<Outcome>)
    requires Rectangular(obs) && Rectangular(mod) && SameShape(dist, obs)
    ensures r.Err? <==> Rows(obs) != Rows(mod) || Cols(obs) != Cols(mod)
    ensures r.Ok? ==> SameShape(r.value.buff, obs) && SameShape(r.value.mask, obs) && SameShape(r.value.aggr, obs)
    ensures r.Ok? ==> Binary(r.value.buff) && Binary(r.value.mask) && Binary(r.value.aggr)
    ensures r.Ok? ==> r.value.aggr == TP(obs, r.value.mask) && r.value.counts.a == Occurrences(r.value.aggr, 1)
    ensures r.Ok? ==> SameShape(obs, mod)
    ensures r.Ok? ==> forall i, j :: 0 <= i < |obs| && 0 <= j < |obs[i]| ==>
              && (r.value.buff[i][j] == 1 <==> dist[i][j] >= 0.0)
              && (r.value.mask[i][j] == 1 <==> (if dist[i][j] >= 0.0 then mod[i][j] else 0.0) > thresh)
    ensures r.Ok? ==> r.value.counts == Tabulate(obs, r.value.buff, r.value.mask)
    ensures r.Ok? ==> r.value.scores == Score(r.value.counts)
  {
    if Rows(obs) != Rows(mod) || Cols(obs) != Cols(mod) then Err(DimensionMismatch)
    else
      SameDimsSameShape(obs, mod);
      var buff := BufferMask(dist);
      var mask := WetMask(ClipDepth(buff, mod), thresh);
      var counts := Tabulate(obs, buff, mask);
      Ok(Outcome(buff, mask, Both(obs, mask), counts, Score(counts)))
  }

  /** A comparison of rasters of one size is the composition of the stages. */
  lemma CompareStages(obs: Grid<int>, mod: Grid<real>, dist: Grid<real>, thresh: real)
    requires Rectangular(obs) && Rectangular(mod) && SameShape(dist, obs)
    requires Rows(obs) == Rows(mod) && Cols(obs) == Cols(mod)
    ensures SameShape(obs, mod)
    ensures var buff := BufferMask(dist);
            var mask := WetMask(ClipDepth(buff, mod), thresh);
            var k := Tabulate(obs, buff, mask);
            Compare(obs, mod, dist, thresh) == Ok(Outcome(buff, mask, TP(obs, mask), k, Score(k)))
  {
    SameDimsSameShape(obs, mod);
  }

  // ---------------------------------------------------------------------
  // Properties
  // ---------------------------------------------------------------------

  /** Every cell of `g` that is not 0 lies inside the buffer. */
  predicate InsideBuffer(g: Grid<int>, buff: Grid<int>)
    requires SameShape(g, buff)
  {
    forall i, j :: 0 <= i < |g| && 0 <= j < |g[i]| && g[i][j] != 0 ==> buff[i][j] == 1
  }

  /** Every observed wet cell has a non-negative distance: the proximity tool
      gives a target cell the distance 0 to itself. */
  predicate WetCellsHaveDistance(obs: Grid<int>, dist: Grid<real>)
    requires SameShape(obs, dist)
  {
    forall i, j :: 0 <= i < |obs| && 0 <= j < |obs[i]| && obs[i][j] != 0 ==> dist[i][j] >= 0.0
  }

  /** For a binary observation inside the buffer, every buffer cell falls in
      exactly one of TP, FP, TN, FN and no other cell falls in any; so the
      four counts add up to the buffer's size, and a + c is the number of
      observed wet cells. */
  lemma {:induction false} Partition(obs: Grid<int>, buff: Grid<int>, mask: Grid<int>)
    requires SameShape(obs, buff) && SameShape(obs, mask)
    requires Binary(obs) && Binary(buff) && Binary(mask) && InsideBuffer(obs, buff)
    ensures forall i, j :: 0 <= i < |obs| && 0 <= j < |obs[i]| ==>
              TP(obs, mask)[i][j] + FP(obs, buff, mask)[i][j] + TN(obs, buff, mask)[i][j] + FN(obs, buff, mask)[i][j] == buff[i][j]
    ensures var k := Tabulate(obs, buff, mask);
            k.a + k.b + k.c + k.d == Occurrences(buff, 1) && k.a + k.c == Occurrences(obs, 1)
  {
    var tp, fp, tn, fn := TP(obs, mask), FP(obs, buff, mask), TN(obs, buff, mask), FN(obs, buff, mask);
    var obsDry := DryMask(buff, obs);
    TotalOfSum(tp, tn, obs);
    TotalOfSum(fp, fn, obsDry);
    TotalOfSum(obs, obsDry, buff);
    TotalOfBinary(tp);
    TotalOfBinary(fp);
    TotalOfBinary(tn);
    TotalOfBinary(fn);
    TotalOfBinary(obs);
    TotalOfBinary(buff);
  }

  /** When the wet mask also lies inside the buffer, a + b is the number of
      modelled wet cells. */
  lemma {:induction false} ModelledWetCount(obs: Grid<int>, buff: Grid<int>, mask: Grid<int>)
    requires SameShape(obs, buff) && SameShape(obs, mask)
    requires Binary(obs) && Binary(mask) && InsideBuffer(obs, buff) && InsideBuffer(mask, buff)
    ensures var k := Tabulate(obs, buff, mask); k.a + k.b == Occurrences(mask, 1)
  {
    var tp, fp := TP(obs, mask), FP(obs, buff, mask);
    TotalOfSum(tp, fp, mask);
    TotalOfBinary(tp);
    TotalOfBinary(fp);
    TotalOfBinary(mask);
  }

  /** Outside the buffer the clipped depth is 0, so a cell there is wet
      exactly when the threshold is negative. */
  lemma WetMaskOutsideBuffer(buff: Grid<int>, mod: Grid<real>, thresh: real)
    requires SameShape(buff, mod)
    ensures var mask := WetMask(ClipDepth(buff, mod), thresh);
            forall i, j :: 0 <= i < |mod| && 0 <= j < |mod[i]| && buff[i][j] != 1 ==> (mask[i][j] == 1 <==> thresh < 0.0)
    ensures thresh >= 0.0 ==> InsideBuffer(WetMask(ClipDepth(buff, mod), thresh), buff)
  {
  }

  /** The whole comparison on a binary observation whose wet cells have a
      distance: the counts partition the buffer, a + c counts the observed wet
      cells, and for a non-negative threshold a + b counts the modelled wet
      cells; the agreement raster is TP. */
  lemma {:induction false} CompareContingency(obs: Grid<int>, mod: Grid<real>, dist: Grid<real>, thresh: real)
    requires Rectangular(obs) && Rectangular(mod) && SameShape(dist, obs)
    requires Rows(obs) == Rows(mod) && Cols(obs) == Cols(mod)
    requires Binary(obs) && WetCellsHaveDistance(obs, dist)
    ensures Compare(obs, mod, dist, thresh).Ok?
    ensures var o := Compare(obs, mod, dist, thresh).value;
            && o.counts.a + o.counts.b + o.counts.c + o.counts.d == Occurrences(o.buff, 1)
            && o.counts.a + o.counts.c == Occurrences(obs, 1)
            && (thresh >= 0.0 ==> o.counts.a + o.counts.b == Occurrences(o.mask, 1))
  {
    SameDimsSameShape(obs, mod);
    var buff := BufferMask(dist);
    Partition(obs, buff, WetMask(ClipDepth(buff, mod), thresh));
    if thresh >= 0.0 {
      WetMaskOutsideBuffer(buff, mod, thresh);
      ModelledWetCount(obs, buff, WetMask(ClipDepth(buff, mod), thresh));
    }
  }

  /** The scores of counts whose a + c and a + b are the observed and the
      modelled wet-cell counts, written as ratios of those. */
  lemma ScoresOfWetCounts(k: Counts, nObs: nat, nMod: nat)
    requires k.a + k.c == nObs && k.a + k.b == nMod
    ensures var s := Score(k);
            && (s.hitRate.Some? <==> nObs > 0)
            && (s.hitRate.Some? ==> s.hitRate.value == k.a as real / nObs as real)
            && (s.falseAlarmRatio.Some? <==> nMod > 0)
            && (s.falseAlarmRatio.Some? ==> s.falseAlarmRatio.value == k.b as real / nMod as real)
            && (s.bias.Some? ==> s.bias.value == nMod as real / nObs as real - 1.0)
            && (s.bias.Some? ==> (s.bias.value == 0.0 <==> nMod == nObs))
  {
  }

  /** For a non-negative threshold the scores read as wet-cell ratios: H is
      the share of observed wet cells the model wets, F the share of modelled
      wet cells that are observed dry, and B the ratio of modelled to observed
      wet cells minus 1, so B is 0 exactly when the two wet areas are equal. */
  lemma {:induction false} ScoresAsWetFractions(obs: Grid<int>, mod: Grid<real>, dist: Grid<real>, thresh: real)
    requires Rectangular(obs) && Rectangular(mod) && SameShape(dist, obs)
    requires Rows(obs) == Rows(mod) && Cols(obs) == Cols(mod)
    requires Binary(obs) && WetCellsHaveDistance(obs, dist) && thresh >= 0.0
    ensures Compare(obs, mod, dist, thresh).Ok?
    ensures var o := Compare(obs, mod, dist, thresh).value;
            var nObs, nMod := Occurrences(obs, 1), Occurrences(o.mask, 1);
            && (o.scores.hitRate.Some? <==> nObs > 0)
            && (o.scores.hitRate.Some? ==> o.scores.hitRate.value == o.counts.a as real / nObs as real)
            && (o.scores.falseAlarmRatio.Some? <==> nMod > 0)
            && (o.scores.falseAlarmRatio.Some? ==> o.scores.falseAlarmRatio.value == o.counts.b as real / nMod as real)
            && (o.scores.bias.Some? ==> o.scores.bias.value == nMod as real / nObs as real - 1.0)
            && (o.scores.bias.Some? ==> (o.scores.bias.value == 0.0 <==> nMod == nObs))
  {
    CompareContingency(obs, mod, dist, thresh);
    var o := Compare(obs, mod, dist, thresh).value;
    ScoresOfWetCounts(o.counts, Occurrences(obs, 1), Occurrences(o.mask, 1));
  }

  /** A higher threshold wets no cell that a lower one leaves dry. */
  lemma WetMaskAntitone(nmod: Grid<real>, t1: real, t2: real)
    requires t1 <= t2
    ensures SameShape(WetMask(nmod, t2), WetMask(nmod, t1))
    ensures CellwiseLe(WetMask(nmod, t2), WetMask(nmod, t1))
  {
  }

  /** Drying cells of the wet mask (m2 below m1) can only lower a and b and
      raise c. */
  lemma {:induction false} TabulateMonotone(obs: Grid<int>, buff: Grid<int>, m1: Grid<int>, m2: Grid<int>)
    requires SameShape(obs, buff) && SameShape(obs, m1) && SameShape(obs, m2)
    requires Binary(obs) && Binary(m1) && Binary(m2) && CellwiseLe(m2, m1)
    ensures var k1, k2 := Tabulate(obs, buff, m1), Tabulate(obs, buff, m2);
            k2.a <= k1.a && k2.b <= k1.b && k2.c >= k1.c
  {
    TotalMonotone(TP(obs, m2), TP(obs, m1));
    TotalMonotone(FP(obs, buff, m2), FP(obs, buff, m1));
    TotalMonotone(TN(obs, buff, m1), TN(obs, buff, m2));
  }

  /** Raising the threshold, with the observation and the buffer fixed, never
      wets a cell, so a and b never grow and c never shrinks. */
  lemma {:induction false} ThresholdMonotone(obs: Grid<int>, mod: Grid<real>, dist: Grid<real>, t1: real, t2: real)
    requires Rectangular(obs) && Rectangular(mod) && SameShape(dist, obs)
    requires Rows(obs) == Rows(mod) && Cols(obs) == Cols(mod)
    requires Binary(obs) && t1 <= t2
    ensures Compare(obs, mod, dist, t1).Ok? && Compare(obs, mod, dist, t2).Ok?
    ensures var o1, o2 := Compare(obs, mod, dist, t1).value, Compare(obs, mod, dist, t2).value;
            && SameShape(o2.mask, o1.mask) && CellwiseLe(o2.mask, o1.mask)
            && o2.counts.a <= o1.counts.a && o2.counts.b <= o1.counts.b && o2.counts.c >= o1.counts.c
  {
    CompareStages(obs, mod, dist, t1);
    CompareStages(obs, mod, dist, t2);
    var buff := BufferMask(dist);
    var nmod := ClipDepth(buff, mod);
    WetMaskAntitone(nmod, t1, t2);
    TabulateMonotone(obs, buff, WetMask(nmod, t1), WetMask(nmod, t2));
  }
}
