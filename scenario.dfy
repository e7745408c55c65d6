/** A worked 4x4 comparison: the buffer covers every cell, the observation is
    wet at (0,0) and (0,1), and the model is deeper than the threshold at
    (0,0), (0,1) and (1,1). */
module FloodScenario {
  import opened Raster
  import opened FloodComparison

  function Observed(): Grid<int>
  {
    [[1, 1, 0, 0], [0, 0, 0, 0], [0, 0, 0, 0], [0, 0, 0, 0]]
  }

  function Depth(): Grid<real>
  {
    [[0.5, 0.3, 0.0, 0.0], [0.0, 0.2, 0.0, 0.0], [0.0, 0.0, 0.0, 0.0], [0.0, 0.0, 0.0, 0.0]]
  }

  /** The proximity raster: every cell within reach of the observed flood. */
  function Distance(): Grid<real>
  {
    [[0.0, 0.0, 0.003, 0.006], [0.003, 0.003, 0.004, 0.007], [0.006, 0.006, 0.007, 0.009], [0.009, 0.009, 0.0095, 0.0099]]
  }

  function FullBuffer(): Grid<int>
  {
    [[1, 1, 1, 1], [1, 1, 1, 1], [1, 1, 1, 1], [1, 1, 1, 1]]
  }

  function ModelWet(): Grid<int>
  {
    [[1, 1, 0, 0], [0, 1, 0, 0], [0, 0, 0, 0], [0, 0, 0, 0]]
  }

  /** The buffer covers the grid and the threshold 0.1 wets three cells. */
  lemma ScenarioMasks(mod: Grid<real>, dist: Grid<real>, full: Grid<int>, wet: Grid<int>)
    requires mod == Depth() && dist == Distance() && full == FullBuffer() && wet == ModelWet()
    ensures BufferMask(dist) == full
    ensures WetMask(ClipDepth(full, mod), 0.1) == wet
  {
    var buff := BufferMask(dist);
    assert forall i :: 0 <= i < 4 ==> buff[i] == full[i];
    var nmod := ClipDepth(full, mod);
    assert forall i :: 0 <= i < 4 ==> nmod[i] == mod[i];
    var w := WetMask(mod, 0.1);
    assert forall i :: 0 <= i < 4 ==> w[i] == wet[i];
  }

  lemma TotalOfFourRows(g: Grid<int>)
    requires |g| == 4
    ensures Total(g) == RowTotal(g[0]) + RowTotal(g[1]) + RowTotal(g[2]) + RowTotal(g[3])
  {
    var g1 := g[1..];
    var g2 := g1[1..];
    var g3 := g2[1..];
    assert Total(g3[1..]) == 0;
    assert Total(g3) == RowTotal(g[3]);
    assert Total(g2) == RowTotal(g[2]) + Total(g3);
    assert Total(g1) == RowTotal(g[1]) + Total(g2);
  }

  lemma FourOnes(row: seq<int>)
    requires |row| == 4
    ensures RowTotal(row) == row[0] + row[1] + row[2] + row[3]
  {
    var r1 := row[1..];
    var r2 := r1[1..];
    var r3 := r2[1..];
    assert RowTotal(r3[1..]) == 0;
    assert RowTotal(r3) == row[3];
    assert RowTotal(r2) == row[2] + RowTotal(r3);
    assert RowTotal(r1) == row[1] + RowTotal(r2);
  }

  /** The number of 1 cells of a binary 4x4 raster, added up cell by cell. */
  lemma CellsOf(g: Grid<int>)
    requires |g| == 4 && forall i :: 0 <= i < 4 ==> |g[i]| == 4
    requires Binary(g)
    ensures Occurrences(g, 1) ==
              g[0][0] + g[0][1] + g[0][2] + g[0][3] + g[1][0] + g[1][1] + g[1][2] + g[1][3] +
              g[2][0] + g[2][1] + g[2][2] + g[2][3] + g[3][0] + g[3][1] + g[3][2] + g[3][3]
  {
    TotalOfBinary(g);
    TotalOfFourRows(g);
    FourOnes(g[0]);
    FourOnes(g[1]);
    FourOnes(g[2]);
    FourOnes(g[3]);
  }

  /** Every observed wet cell is also modelled wet. */
  lemma ScenarioAgreement(obs: Grid<int>, wet: Grid<int>)
    requires obs == Observed() && wet == ModelWet()
    ensures TP(obs, wet) == obs
  {
    var tp := TP(obs, wet);
    assert forall i :: 0 <= i < 4 ==> tp[i] == obs[i];
  }

  lemma ScenarioInputs(obs: Grid<int>, full: Grid<int>, wet: Grid<int>)
    requires obs == Observed() && full == FullBuffer() && wet == ModelWet()
    ensures SameShape(obs, full) && SameShape(obs, wet)
    ensures Binary(obs) && Binary(full) && Binary(wet)
    ensures InsideBuffer(obs, full) && InsideBuffer(wet, full)
  {
  }

  lemma BufferSize(full: Grid<int>)
    requires full == FullBuffer()
    ensures Occurrences(full, 1) == 16
  {
    CellsOf(full);
  }

  lemma ObservedSize(obs: Grid<int>)
    requires obs == Observed()
    ensures Occurrences(obs, 1) == 2
  {
    CellsOf(obs);
  }

  lemma ModelWetSize(wet: Grid<int>)
    requires wet == ModelWet()
    ensures Occurrences(wet, 1) == 3
  {
    CellsOf(wet);
  }

  lemma ScenarioSizes(obs: Grid<int>, full: Grid<int>, wet: Grid<int>)
    requires obs == Observed() && full == FullBuffer() && wet == ModelWet()
    ensures Occurrences(full, 1) == 16 && Occurrences(obs, 1) == 2 && Occurrences(wet, 1) == 3
  {
    BufferSize(full);
    ObservedSize(obs);
    ModelWetSize(wet);
  }

  /** The sums the partition fixes: 16 buffer cells, 2 observed wet, 3 modelled wet. */
  lemma ScenarioTotals(obs: Grid<int>, full: Grid<int>, wet: Grid<int>)
    requires obs == Observed() && full == FullBuffer() && wet == ModelWet()
    ensures SameShape(obs, full) && SameShape(obs, wet)
    ensures var k := Tabulate(obs, full, wet);
            k.a + k.b + k.c + k.d == 16 && k.a + k.c == 2 && k.a + k.b == 3
  {
    ScenarioInputs(obs, full, wet);
    ScenarioSizes(obs, full, wet);
    Partition(obs, full, wet);
    ModelledWetCount(obs, full, wet);
  }

  lemma ScenarioCounts(obs: Grid<int>, full: Grid<int>, wet: Grid<int>)
    requires obs == Observed() && full == FullBuffer() && wet == ModelWet()
    ensures SameShape(obs, full) && SameShape(obs, wet)
    ensures Tabulate(obs, full, wet) == Counts(2, 1, 0, 13)
  {
    ScenarioTotals(obs, full, wet);
    ScenarioAgreement(obs, wet);
    ScenarioSizes(obs, full, wet);
  }

  lemma ScenarioScores()
    ensures Score(Counts(2, 1, 0, 13)) == Scores(Some(1.0), Some(1.0 / 3.0), Some(2.0 / 3.0), Some(0.5))
  {
  }

  /** With threshold 0.1 the model over-predicts one cell: a = 2, b = 1,
      c = 0, d = 13, so H = 1, F = 1/3, C = 2/3 and B = 1/2. */
  lemma FourByFour(obs: Grid<int>, mod: Grid<real>, dist: Grid<real>, thresh: real)
    requires obs == Observed() && mod == Depth() && dist == Distance() && thresh == 0.1
    ensures Compare(obs, mod, dist, thresh).Ok?
    ensures var o := Compare(obs, mod, dist, thresh).value;
            && o.counts == Counts(2, 1, 0, 13)
            && o.scores == Scores(Some(1.0), Some(1.0 / 3.0), Some(2.0 / 3.0), Some(0.5))
  {
    var full, wet := FullBuffer(), ModelWet();
    ScenarioInputs(obs, full, wet);
    CompareStages(obs, mod, dist, thresh);
    ScenarioMasks(mod, dist, full, wet);
    ScenarioCounts(obs, full, wet);
    ScenarioScores();
  }
}
