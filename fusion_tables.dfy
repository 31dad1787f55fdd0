/**
 * The contingency tables shared by the two tabulation scripts
 * (fusion_tables_prolific.py and fusion_tables_singleton.py): for each of the
 * three role pairs (managers/workers, outsiders/insiders, soloists/ensembles)
 * a count table and a growth-sum table of (MaxParts + 1) x (MaxParts + 1)
 * cells, the running sample size, and the derived average and fraction
 * tables computed once every run has been read.
 */
module FusionTables {
  import opened Grids

  /** The largest number of parts a tabulated symbiote may have. */
  const MaxParts: nat := 5
  /** Rows and columns of every table: part counts 0..MaxParts. */
  const TableRange: nat := MaxParts + 1

  /** One fusion root as the tabulation scripts see it. */
  datatype FusionRoot = FusionRoot(
    id: int,
    trueChildren: nat,  // length of the root's list of asexual children
    numParts: int)      // largest value in the root's region map

  /** Result of the external mutualism statistic, in the order it is returned. */
  datatype Mutualism = Mutualism(insiders: int, outsiders: int, insiderGrowth: int, outsiderGrowth: int)
  /** Result of the external interaction statistic, in the order it is returned. */
  datatype Interaction = Interaction(ensembles: int, soloists: int, ensembleGrowth: int, soloistGrowth: int)
  /** Result of the external management statistic, in the order it is returned. */
  datatype Management = Management(managers: int, workers: int, managerGrowth: int, workerGrowth: int)

  /** The three role statistics of one seed. */
  datatype SeedStats = SeedStats(mutualism: Mutualism, interaction: Interaction, management: Management)

  predicate InRange(k: int) {
    0 <= k < TableRange
  }

  /** Every count the tables are indexed by lies in 0..MaxParts. */
  predicate Fits(s: SeedStats) {
    && InRange(s.management.managers) && InRange(s.management.workers)
    && InRange(s.mutualism.outsiders) && InRange(s.mutualism.insiders)
    && InRange(s.interaction.soloists) && InRange(s.interaction.ensembles)
  }

  predicate NonNegative(g: Grid) {
    forall i, j :: 0 <= i < |g| && 0 <= j < |g[i]| ==> g[i][j] >= 0
  }

  /** A sum cell can hold growth only where its count cell has recorded a seed. */
  predicate SumsFollowCounts(cnt: Grid, sum: Grid) {
    forall i, j :: 0 <= i < |cnt| && 0 <= j < |cnt[i]| && i < |sum| && j < |sum[i]| && cnt[i][j] == 0 ==>
      sum[i][j] == 0
  }

  /**
   * What a count table and its sum table keep true between updates: the
   * counts are non-negative and add up to the sample size, and empty count
   * cells have empty sums.
   */
  predicate RoleInvariant(cnt: Grid, sum: Grid, n: int) {
    && IsShape(cnt, TableRange, TableRange)
    && IsShape(sum, TableRange, TableRange)
    && TableSum(cnt) == n
    && NonNegative(cnt)
    && SumsFollowCounts(cnt, sum)
  }

  /** Recording one more seed at `(r, c)` keeps the invariant, with the sample size one larger. */
  lemma {:induction false} RecordKeepsInvariant(cnt: Grid, sum: Grid, n: int, r: nat, c: nat, growth: int)
    requires RoleInvariant(cnt, sum, n)
    requires r < TableRange && c < TableRange
    ensures RoleInvariant(Bump(cnt, r, c, 1), Bump(sum, r, c, growth), n + 1)
  {
    TableSumBump(cnt, r, c, 1);
  }

  /** The average cell: the growth sum over the count, or 0 for an empty cell. */
  function Average(sum: int, count: int): real {
    if count > 0 then sum as real / count as real else 0.0
  }

  function WeightedRowSum(avg: seq<real>, cnt: seq<int>): real
    requires |avg| == |cnt|
  {
    if avg == [] then 0.0 else avg[0] * cnt[0] as real + WeightedRowSum(avg[1..], cnt[1..])
  }

  /** The sum over all cells of average times count. */
  function WeightedSum(avg: seq<seq<real>>, cnt: Grid): real
    requires |avg| == |cnt| && forall i :: 0 <= i < |avg| ==> |avg[i]| == |cnt[i]|
  {
    if avg == [] then 0.0 else WeightedRowSum(avg[0], cnt[0]) + WeightedSum(avg[1..], cnt[1..])
  }

  lemma {:induction false} WeightedRowSumRecovers(avg: seq<real>, cnt: seq<int>, sum: seq<int>)
    requires |avg| == |cnt| == |sum|
    requires forall j :: 0 <= j < |avg| ==> avg[j] == Average(sum[j], cnt[j])
    requires forall j :: 0 <= j < |avg| ==> cnt[j] >= 0 && (cnt[j] == 0 ==> sum[j] == 0)
    ensures WeightedRowSum(avg, cnt) == RowSum(sum) as real
  {
    if avg != [] {
      WeightedRowSumRecovers(avg[1..], cnt[1..], sum[1..]);
    }
  }

  /**
   * The average table weighted by the count table gives back the total
   * growth, so no growth is lost by the averaging (empty cells carry none).
   */
  lemma {:induction false} WeightedAveragesRecoverTotal(avg: seq<seq<real>>, cnt: Grid, sum: Grid)
    requires |avg| == |cnt| == |sum|
    requires forall i :: 0 <= i < |avg| ==> |avg[i]| == |cnt[i]| == |sum[i]|
    requires forall i, j :: 0 <= i < |avg| && 0 <= j < |avg[i]| ==> avg[i][j] == Average(sum[i][j], cnt[i][j])
    requires NonNegative(cnt) && SumsFollowCounts(cnt, sum)
    ensures WeightedSum(avg, cnt) == TableSum(sum) as real
  {
    if avg != [] {
      WeightedRowSumRecovers(avg[0], cnt[0], sum[0]);
      WeightedAveragesRecoverTotal(avg[1..], cnt[1..], sum[1..]);
    }
  }

  lemma AddFractions(x: int, y: int, n: int)
    requires n > 0
    ensures x as real / n as real + y as real / n as real == (x + y) as real / n as real
  {
  }

  lemma {:induction false} FractionRowSum(frac: seq<real>, cnt: seq<int>, n: int)
    requires n > 0 && |frac| == |cnt|
    requires forall j :: 0 <= j < |frac| ==> frac[j] == cnt[j] as real / n as real
    ensures RealRowSum(frac) == RowSum(cnt) as real / n as real
  {
    if frac != [] {
      FractionRowSum(frac[1..], cnt[1..], n);
      AddFractions(cnt[0], RowSum(cnt[1..]), n);
    }
  }

  lemma {:induction false} FractionTableSum(frac: seq<seq<real>>, cnt: Grid, n: int)
    requires n > 0 && |frac| == |cnt|
    requires forall i :: 0 <= i < |frac| ==> |frac[i]| == |cnt[i]|
    requires forall i, j :: 0 <= i < |frac| && 0 <= j < |frac[i]| ==> frac[i][j] == cnt[i][j] as real / n as real
    ensures RealTableSum(frac) == TableSum(cnt) as real / n as real
  {
    if frac != [] {
      FractionRowSum(frac[0], cnt[0], n);
      FractionTableSum(frac[1..], cnt[1..], n);
      AddFractions(RowSum(cnt[0]), TableSum(cnt[1..]), n);
    }
  }

  /** When the counts add up to the sample size, the fraction table adds up to 1. */
  lemma FractionsSumToOne(frac: seq<seq<real>>, cnt: Grid, n: int)
    requires n > 0 && |frac| == |cnt|
    requires forall i :: 0 <= i < |frac| ==> |frac[i]| == |cnt[i]|
    requires forall i, j :: 0 <= i < |frac| && 0 <= j < |frac[i]| ==> frac[i][j] == cnt[i][j] as real / n as real
    requires TableSum(cnt) == n
    ensures RealTableSum(frac) == 1.0
  {
    FractionTableSum(frac, cnt, n);
    assert n as real / n as real == 1.0;
  }

  /**
   * The average table of one role pair, filled cell by cell by the nested
   * row/column loop.
   */
  method AverageTable(cnt: array2<int>, sum: array2<int>) returns (avg: array2<real>)
    requires sum.Length0 == cnt.Length0 && sum.Length1 == cnt.Length1
    ensures fresh(avg) && avg.Length0 == cnt.Length0 && avg.Length1 == cnt.Length1
    ensures forall i, j :: 0 <= i < avg.Length0 && 0 <= j < avg.Length1 ==>
      avg[i, j] == Average(sum[i, j], cnt[i, j])
  {
    avg := new real[cnt.Length0, cnt.Length1];
    for row := 0 to cnt.Length0
      invariant forall i, j :: 0 <= i < row && 0 <= j < avg.Length1 ==> avg[i, j] == Average(sum[i, j], cnt[i, j])
    {
      for col := 0 to cnt.Length1
        invariant forall i, j :: 0 <= i < row && 0 <= j < avg.Length1 ==> avg[i, j] == Average(sum[i, j], cnt[i, j])
        invariant forall j :: 0 <= j < col ==> avg[row, j] == Average(sum[row, j], cnt[row, j])
      {
        if cnt[row, col] > 0 {
          avg[row, col] := sum[row, col] as real / cnt[row, col] as real;
        } else {
          avg[row, col] := 0.0;
        }
      }
    }
  }

  /**
   * The fraction table of one role pair: each count over the sample size.
   * With a sample size of 0 the division is undefined (`defined` is false).
   */
  method FractionTable(cnt: array2<int>, n: int) returns (frac: array2<real>, defined: bool)
    ensures fresh(frac) && frac.Length0 == cnt.Length0 && frac.Length1 == cnt.Length1
    ensures defined <==> n != 0
    ensures defined ==> forall i, j :: 0 <= i < frac.Length0 && 0 <= j < frac.Length1 ==>
      frac[i, j] == cnt[i, j] as real / n as real
  {
    frac := new real[cnt.Length0, cnt.Length1];
    defined := n != 0;
    if !defined {
      return;
    }
    for row := 0 to cnt.Length0
      invariant forall i, j :: 0 <= i < row && 0 <= j < frac.Length1 ==> frac[i, j] == cnt[i, j] as real / n as real
    {
      for col := 0 to cnt.Length1
        invariant forall i, j :: 0 <= i < row && 0 <= j < frac.Length1 ==> frac[i, j] == cnt[i, j] as real / n as real
        invariant forall j :: 0 <= j < col ==> frac[row, j] == cnt[row, j] as real / n as real
      {
        frac[row, col] := cnt[row, col] as real / n as real;
      }
    }
  }

  /**
   * How many elements of `xs` satisfy `p`: the number of fusion roots a
   * tabulation script accepts, and so the amount a run adds to the sample size.
   */
  function Count<T>(xs: seq<T>, p: T -> bool): (n: nat)
    ensures n <= |xs|
  {
    if xs == [] then 0 else (if p(xs[0]) then 1 else 0) + Count(xs[1..], p)
  }

  /** The count is 0 exactly when no element satisfies `p`, and `|xs|` exactly when all do. */
  lemma {:induction false} CountExtremes<T>(xs: seq<T>, p: T -> bool)
    ensures Count(xs, p) == 0 <==> forall k :: 0 <= k < |xs| ==> !p(xs[k])
    ensures Count(xs, p) == |xs| <==> forall k :: 0 <= k < |xs| ==> p(xs[k])
  {
    if xs != [] {
      CountExtremes(xs[1..], p);
      assert forall k :: 1 <= k < |xs| ==> xs[k] == xs[1..][k - 1];
    }
  }

  /** Counting one more element adds 1 exactly when it satisfies `p`. */
  lemma {:induction false} CountStep<T>(xs: seq<T>, p: T -> bool, i: nat)
    requires i < |xs|
    ensures Count(xs[..i + 1], p) == Count(xs[..i], p) + if p(xs[i]) then 1 else 0
  {
    if i > 0 {
      CountStep(xs[1..], p, i - 1);
      assert xs[1..][..i] == xs[..i + 1][1..];
      assert xs[1..][..i - 1] == xs[..i][1..];
    } else {
      assert xs[..1][1..] == [];
    }
  }

  predicate Shaped<T>(a: array2<T>) {
    a.Length0 == TableRange && a.Length1 == TableRange
  }

  /**
   * Records `cnt[r, c] += 1` and `sum[r, c] += growth` for the seed `s`:
   * the tables of pair `p`, the tally of the seeds `ss` before, are the
   * tally of `ss + [s]` afterwards.
   */
  method RecordCell(cnt: array2<int>, sum: array2<int>, r: nat, c: nat, growth: int,
                    ghost ss: seq<SeedStats>, ghost s: SeedStats, ghost p: Pair)
    requires PairValid(cnt, sum, ss, p)
    requires r < TableRange && c < TableRange
    requires SlotOf(s, p) == Slot(r, c, growth)
    modifies cnt, sum
    ensures PairValid(cnt, sum, ss + [s], p)
    ensures CellRecorded(cnt, sum, r, c, growth)
  {
    ghost var cnt0, sum0 := Cells(cnt), Cells(sum);
    cnt[r, c] := cnt[r, c] + 1;
    sum[r, c] := sum[r, c] + growth;
    BumpAt(cnt0, r, c, 1);
    BumpAt(sum0, r, c, growth);
    CellsEqual(cnt, Bump(cnt0, r, c, 1));
    CellsEqual(sum, Bump(sum0, r, c, growth));
    TallyBump(cnt0, sum0, ss, s, p);
  }

  /**
   * Between two states, `t` tabulated exactly one seed with statistics `s`:
   * the sample size grew by one, `s` joined the history, and each role pair bumped one count cell by 1
   * and the same sum cell by the pair's two growths. The mutualism tables are
   * indexed [outsiders, insiders] and the interaction tables
   * [soloists, ensembles], the reverse of the order the statistics come in.
   */
  twostate predicate RecordedOnce(t: Tables, s: SeedStats)
    reads t, t.manCnt, t.manSum, t.mutCnt, t.mutSum, t.intCnt, t.intSum
  {
    var m, u, i := s.management, s.mutualism, s.interaction;
    && t.sampleSize == old(t.sampleSize) + 1
    && t.history == old(t.history) + [s]
    && CellRecorded(t.manCnt, t.manSum, m.managers, m.workers, m.managerGrowth + m.workerGrowth)
    && CellRecorded(t.mutCnt, t.mutSum, u.outsiders, u.insiders, u.outsiderGrowth + u.insiderGrowth)
    && CellRecorded(t.intCnt, t.intSum, i.soloists, i.ensembles, i.soloistGrowth + i.ensembleGrowth)
  }

  /**
   * Between two states, `cnt[r, c]` gained 1 and `sum[r, c]` gained
   * `growth`, and every other cell of both kept its value.
   */
  twostate predicate CellRecorded(cnt: array2<int>, sum: array2<int>, r: int, c: int, growth: int)
    reads cnt, sum
  {
    && (forall i, j :: 0 <= i < cnt.Length0 && 0 <= j < cnt.Length1 ==>
          cnt[i, j] == old(cnt[i, j]) + if i == r && j == c then 1 else 0)
    && (forall i, j :: 0 <= i < sum.Length0 && 0 <= j < sum.Length1 ==>
          sum[i, j] == old(sum[i, j]) + if i == r && j == c then growth else 0)
  }

  /**
   * Between two states, every cell of each count table of `t` gained the
   * number of seeds of `added` that land in it, and every cell of each sum
   * table the growth those seeds bring.
   */
  twostate predicate Gained(t: Tables, added: seq<SeedStats>)
    reads t, t.manCnt, t.manSum, t.mutCnt, t.mutSum, t.intCnt, t.intSum
  {
    && GainedPair(t.manCnt, t.manSum, old(Cells(t.manCnt)), old(Cells(t.manSum)), added, ManagersWorkers)
    && GainedPair(t.mutCnt, t.mutSum, old(Cells(t.mutCnt)), old(Cells(t.mutSum)), added, OutsidersInsiders)
    && GainedPair(t.intCnt, t.intSum, old(Cells(t.intCnt)), old(Cells(t.intSum)), added, SoloistsEnsembles)
  }

  /**
   * Each cell of `cnt` is the cell of the earlier contents `c0` plus the
   * number of seeds of `added` that land in it, and each cell of `sum` the
   * cell of `s0` plus their growth.
   */
  ghost predicate GainedPair(cnt: array2<int>, sum: array2<int>, c0: Grid, s0: Grid, added: seq<SeedStats>, p: Pair)
    reads cnt, sum
  {
    && IsShape(c0, cnt.Length0, cnt.Length1) && IsShape(s0, sum.Length0, sum.Length1)
    && (forall i, j :: 0 <= i < cnt.Length0 && 0 <= j < cnt.Length1 ==>
          cnt[i, j] == c0[i][j] + CellCount(added, p, i, j))
    && (forall i, j :: 0 <= i < sum.Length0 && 0 <= j < sum.Length1 ==>
          sum[i, j] == s0[i][j] + CellGrowth(added, p, i, j))
  }

  /** Between two states, neither the sample size nor any table of `t` changed. */
  twostate predicate Untouched(t: Tables)
    reads t, t.manCnt, t.manSum, t.mutCnt, t.mutSum, t.intCnt, t.intSum
  {
    unchanged(t, t.manCnt, t.manSum, t.mutCnt, t.mutSum, t.intCnt, t.intSum)
  }

  /** The three role pairs; each has a count table and a sum table. */
  datatype Pair = ManagersWorkers | OutsidersInsiders | SoloistsEnsembles

  /** The cell a seed is recorded in for one role pair, and the growth it adds there. */
  datatype Slot = Slot(row: int, col: int, growth: int)

  /** The slot `Tables.Record` uses for `s` in the tables of pair `p` (as in `RecordedOnce`). */
  function SlotOf(s: SeedStats, p: Pair): Slot {
    match p
    case ManagersWorkers =>
      Slot(s.management.managers, s.management.workers, s.management.managerGrowth + s.management.workerGrowth)
    case OutsidersInsiders =>
      Slot(s.mutualism.outsiders, s.mutualism.insiders, s.mutualism.outsiderGrowth + s.mutualism.insiderGrowth)
    case SoloistsEnsembles =>
      Slot(s.interaction.soloists, s.interaction.ensembles, s.interaction.soloistGrowth + s.interaction.ensembleGrowth)
  }

  predicate Lands(s: SeedStats, p: Pair, r: int, c: int) {
    SlotOf(s, p).row == r && SlotOf(s, p).col == c
  }

  /** How many of the seeds `ss` land in cell `(r, c)` of pair `p`'s tables. */
  function CellCount(ss: seq<SeedStats>, p: Pair, r: int, c: int): (n: nat)
    ensures n <= |ss|
  {
    if ss == [] then 0
    else CellCount(ss[..|ss| - 1], p, r, c) + if Lands(ss[|ss| - 1], p, r, c) then 1 else 0
  }

  /** The total growth that the seeds landing in cell `(r, c)` of pair `p`'s tables add to it. */
  function CellGrowth(ss: seq<SeedStats>, p: Pair, r: int, c: int): int {
    if ss == [] then 0
    else CellGrowth(ss[..|ss| - 1], p, r, c) + if Lands(ss[|ss| - 1], p, r, c) then SlotOf(ss[|ss| - 1], p).growth else 0
  }

  /** A cell no seed lands in gains no growth, the rule `SumsFollowCounts` keeps for the tables. */
  lemma {:induction false} GrowthFollowsCount(ss: seq<SeedStats>, p: Pair, r: int, c: int)
    ensures CellCount(ss, p, r, c) == 0 ==> CellGrowth(ss, p, r, c) == 0
  {
    if ss != [] {
      GrowthFollowsCount(ss[..|ss| - 1], p, r, c);
    }
  }

  /** Counting over two runs of seeds adds their counts and their growths. */
  lemma {:induction false} CellTallyAppend(a: seq<SeedStats>, b: seq<SeedStats>, p: Pair, r: int, c: int)
    ensures CellCount(a + b, p, r, c) == CellCount(a, p, r, c) + CellCount(b, p, r, c)
    ensures CellGrowth(a + b, p, r, c) == CellGrowth(a, p, r, c) + CellGrowth(b, p, r, c)
  {
    if b == [] {
      assert a + b == a;
    } else {
      CellTallyAppend(a, b[..|b| - 1], p, r, c);
      assert (a + b)[..|a + b| - 1] == a + b[..|b| - 1];
    }
  }

  /** A seed that fits lands in exactly one cell of each pair's tables. */
  lemma {:induction false} CellCountsOfOne(s: SeedStats, p: Pair, r: int, c: int)
    requires Fits(s)
    ensures InRange(SlotOf(s, p).row) && InRange(SlotOf(s, p).col)
    ensures CellCount([s], p, r, c) == if (r, c) == (SlotOf(s, p).row, SlotOf(s, p).col) then 1 else 0
  {
    assert [s][..0] == [];
  }

  /** A table of zeros, the state every table starts in. */
  function ZeroGrid(): Grid {
    seq(TableRange, i => seq(TableRange, j => 0))
  }

  /**
   * The count table of pair `p` after the seeds `ss`, one `+= 1` per seed in
   * order: each seed bumps the cell it lands in (`Shaped` tables have every
   * such cell when the seed fits).
   */
  function CountGrid(ss: seq<SeedStats>, p: Pair): (g: Grid)
    ensures IsShape(g, TableRange, TableRange)
  {
    if ss == [] then ZeroGrid()
    else
      var g, slot := CountGrid(ss[..|ss| - 1], p), SlotOf(ss[|ss| - 1], p);
      if 0 <= slot.row < |g| && 0 <= slot.col < |g[slot.row]| then Bump(g, slot.row, slot.col, 1) else g
  }

  /** The sum table of pair `p` after the seeds `ss`: each seed adds its growth to the cell it lands in. */
  function GrowthGrid(ss: seq<SeedStats>, p: Pair): (g: Grid)
    ensures IsShape(g, TableRange, TableRange)
  {
    if ss == [] then ZeroGrid()
    else
      var g, slot := GrowthGrid(ss[..|ss| - 1], p), SlotOf(ss[|ss| - 1], p);
      if 0 <= slot.row < |g| && 0 <= slot.col < |g[slot.row]| then Bump(g, slot.row, slot.col, slot.growth) else g
  }

  /**
   * Cell `(i, j)` of the count tally holds the number of seeds of `ss` that
   * land there, and the sum tally the growth they bring.
   */
  lemma {:induction false} TallyCells(ss: seq<SeedStats>, p: Pair, i: int, j: int)
    requires InRange(i) && InRange(j)
    ensures CountGrid(ss, p)[i][j] == CellCount(ss, p, i, j)
    ensures GrowthGrid(ss, p)[i][j] == CellGrowth(ss, p, i, j)
  {
    if ss != [] {
      var slot := SlotOf(ss[|ss| - 1], p);
      TallyCells(ss[..|ss| - 1], p, i, j);
      if InRange(slot.row) && InRange(slot.col) {
        BumpAt(CountGrid(ss[..|ss| - 1], p), slot.row, slot.col, 1);
        BumpAt(GrowthGrid(ss[..|ss| - 1], p), slot.row, slot.col, slot.growth);
      }
    }
  }

  /** The count and sum tables `cnt` and `sum` of pair `p` are exactly the tally of the seeds `ss`. */
  predicate Tallied(cnt: Grid, sum: Grid, ss: seq<SeedStats>, p: Pair) {
    cnt == CountGrid(ss, p) && sum == GrowthGrid(ss, p)
  }

  /**
   * Tables holding the tally of `h0` that come to hold the tally of
   * `h0 + added` gained, in every cell, the count and growth of the seeds of
   * `added` that land there.
   */
  lemma TallyGain(c0: Grid, s0: Grid, c1: Grid, s1: Grid, h0: seq<SeedStats>, added: seq<SeedStats>, p: Pair)
    requires Tallied(c0, s0, h0, p) && Tallied(c1, s1, h0 + added, p)
    ensures forall i, j :: InRange(i) && InRange(j) ==>
      && c1[i][j] == c0[i][j] + CellCount(added, p, i, j)
      && s1[i][j] == s0[i][j] + CellGrowth(added, p, i, j)
  {
    forall i, j | InRange(i) && InRange(j)
      ensures c1[i][j] == c0[i][j] + CellCount(added, p, i, j)
      ensures s1[i][j] == s0[i][j] + CellGrowth(added, p, i, j)
    {
      TallyCells(h0, p, i, j);
      TallyCells(h0 + added, p, i, j);
      CellTallyAppend(h0, added, p, i, j);
    }
  }

  /**
   * Arrays that hold the tally of `h0 + added`, where `c0` and `s0` held the
   * tally of `h0`: each cell is its old value plus what `added` brings to it.
   */
  lemma ArrayGain(cnt: array2<int>, sum: array2<int>, c0: Grid, s0: Grid, h0: seq<SeedStats>,
                  added: seq<SeedStats>, p: Pair)
    requires PairValid(cnt, sum, h0 + added, p) && Tallied(c0, s0, h0, p)
    ensures GainedPair(cnt, sum, c0, s0, added, p)
  {
    TallyGain(c0, s0, Cells(cnt), Cells(sum), h0, added, p);
    CellsAt(cnt);
    CellsAt(sum);
  }

  /** Bumping the slot of a fitting seed `s` in the tally of `ss` gives the tally of `ss + [s]`. */
  lemma TallyBump(cnt: Grid, sum: Grid, ss: seq<SeedStats>, s: SeedStats, p: Pair)
    requires Tallied(cnt, sum, ss, p)
    requires InRange(SlotOf(s, p).row) && InRange(SlotOf(s, p).col)
    ensures Tallied(Bump(cnt, SlotOf(s, p).row, SlotOf(s, p).col, 1),
                    Bump(sum, SlotOf(s, p).row, SlotOf(s, p).col, SlotOf(s, p).growth), ss + [s], p)
  {
    assert (ss + [s])[..|ss|] == ss;
  }

  /** No seeds tally to tables of zeros. */
  lemma TallyOfNothing(cnt: Grid, sum: Grid, p: Pair)
    requires IsShape(cnt, TableRange, TableRange) && IsShape(sum, TableRange, TableRange)
    requires AllZero(cnt) && AllZero(sum)
    ensures Tallied(cnt, sum, [], p)
  {
    var z := ZeroGrid();
    forall i | 0 <= i < TableRange ensures cnt[i] == z[i] && sum[i] == z[i] {
      assert |cnt[i]| == |z[i]| && |sum[i]| == |z[i]|;
    }
  }

  /** Every seed of `ss` fits the tables. */
  predicate AllFit(ss: seq<SeedStats>) {
    forall k :: 0 <= k < |ss| ==> Fits(ss[k])
  }

  /**
   * The tally of seeds that all fit keeps the role invariant: its counts are
   * non-negative and add up to the number of seeds, and its empty count
   * cells have empty sums.
   */
  lemma {:induction false} TallyInvariant(ss: seq<SeedStats>, p: Pair)
    requires AllFit(ss)
    ensures RoleInvariant(CountGrid(ss, p), GrowthGrid(ss, p), |ss|)
  {
    if ss == [] {
      TableSumZero(ZeroGrid());
    } else {
      var init, slot := ss[..|ss| - 1], SlotOf(ss[|ss| - 1], p);
      assert AllFit(init) by {
        forall k | 0 <= k < |init| ensures Fits(init[k]) {
          assert init[k] == ss[k];
        }
      }
      TallyInvariant(init, p);
      assert Fits(ss[|ss| - 1]);
      RecordKeepsInvariant(CountGrid(init, p), GrowthGrid(init, p), |init|, slot.row, slot.col, slot.growth);
    }
  }

  /**
   * The count table `cnt` and sum table `sum` of role pair `p` after the
   * seeds `ss`: two distinct tables of the table shape that hold exactly the
   * tally of `ss`.
   */
  ghost predicate PairValid(cnt: array2<int>, sum: array2<int>, ss: seq<SeedStats>, p: Pair)
    reads cnt, sum
  {
    cnt != sum && Shaped(cnt) && Shaped(sum) && Tallied(Cells(cnt), Cells(sum), ss, p)
  }

  /** A new count table and sum table of zeros for pair `p`, valid before any seed. */
  method NewPair(p: Pair) returns (cnt: array2<int>, sum: array2<int>)
    ensures fresh(cnt) && fresh(sum)
    ensures AllZero(Cells(cnt)) && AllZero(Cells(sum))
    ensures PairValid(cnt, sum, [], p)
  {
    cnt := new int[TableRange, TableRange]((i, j) => 0);
    sum := new int[TableRange, TableRange]((i, j) => 0);
    ZeroTablesInvariant(cnt, sum, p);
  }

  class Tables {
    const manCnt: array2<int>
    const manSum: array2<int>
    const mutCnt: array2<int>
    const mutSum: array2<int>
    const intCnt: array2<int>
    const intSum: array2<int>
    /** The number of fusion roots tabulated so far. */
    var sampleSize: int
    /** The statistics of the seeds tabulated so far, in order. */
    ghost var history: seq<SeedStats>

    ghost predicate Valid()
      reads this, manCnt, manSum, mutCnt, mutSum, intCnt, intSum
    {
      && manCnt != manSum && manCnt != mutCnt && manCnt != mutSum && manCnt != intCnt && manCnt != intSum
      && manSum != mutCnt && manSum != mutSum && manSum != intCnt && manSum != intSum
      && mutCnt != mutSum && mutCnt != intCnt && mutCnt != intSum
      && mutSum != intCnt && mutSum != intSum
      && intCnt != intSum
      && sampleSize == |history| && AllFit(history)
      && PairValid(manCnt, manSum, history, ManagersWorkers)
      && PairValid(mutCnt, mutSum, history, OutsidersInsiders)
      && PairValid(intCnt, intSum, history, SoloistsEnsembles)
    }

    /** All six count and sum tables start as zeros and the sample size as 0. */
    constructor ()
      ensures Valid() && sampleSize == 0 && history == []
      ensures fresh(manCnt) && fresh(manSum) && fresh(mutCnt) && fresh(mutSum) && fresh(intCnt) && fresh(intSum)
      ensures AllZero(Cells(manCnt)) && AllZero(Cells(manSum))
      ensures AllZero(Cells(mutCnt)) && AllZero(Cells(mutSum))
      ensures AllZero(Cells(intCnt)) && AllZero(Cells(intSum))
    {
      var mc, ms := NewPair(ManagersWorkers);
      var oc, os := NewPair(OutsidersInsiders);
      var sc, ss := NewPair(SoloistsEnsembles);
      manCnt, manSum, mutCnt, mutSum, intCnt, intSum := mc, ms, oc, os, sc, ss;
      sampleSize := 0;
      history := [];
    }

    /**
     * Tabulates one seed: the sample size counter and the six `+=` updates,
     * written identically in both tabulation scripts.
     */
    method Record(s: SeedStats)
      requires Valid() && Fits(s)
      modifies this, manCnt, manSum, mutCnt, mutSum, intCnt, intSum
      ensures Valid()
      ensures RecordedOnce(this, s)
    {
      var m, u, t := s.management, s.mutualism, s.interaction;
      RecordCell(manCnt, manSum, m.managers, m.workers, m.managerGrowth + m.workerGrowth,
                 history, s, ManagersWorkers);
      RecordCell(mutCnt, mutSum, u.outsiders, u.insiders, u.outsiderGrowth + u.insiderGrowth,
                 history, s, OutsidersInsiders);
      RecordCell(intCnt, intSum, t.soloists, t.ensembles, t.soloistGrowth + t.ensembleGrowth,
                 history, s, SoloistsEnsembles);
      sampleSize := sampleSize + 1;
      history := history + [s];
    }

    /**
     * The three average tables, computed after every run has been read.
     * Weighted by the counts, each gives back its role pair's total growth.
     */
    method Averages() returns (manAvg: array2<real>, mutAvg: array2<real>, intAvg: array2<real>)
      requires Valid()
      ensures fresh(manAvg) && fresh(mutAvg) && fresh(intAvg)
      ensures Shaped(manAvg) && Shaped(mutAvg) && Shaped(intAvg)
      ensures forall i, j :: 0 <= i < TableRange && 0 <= j < TableRange ==>
        && manAvg[i, j] == Average(manSum[i, j], manCnt[i, j])
        && mutAvg[i, j] == Average(mutSum[i, j], mutCnt[i, j])
        && intAvg[i, j] == Average(intSum[i, j], intCnt[i, j])
      ensures WeightedSum(Cells(manAvg), Cells(manCnt)) == TableSum(Cells(manSum)) as real
      ensures WeightedSum(Cells(mutAvg), Cells(mutCnt)) == TableSum(Cells(mutSum)) as real
      ensures WeightedSum(Cells(intAvg), Cells(intCnt)) == TableSum(Cells(intSum)) as real
    {
      TallyInvariant(history, ManagersWorkers);
      TallyInvariant(history, OutsidersInsiders);
      TallyInvariant(history, SoloistsEnsembles);
      manAvg := RoleAverages(manCnt, manSum, sampleSize);
      mutAvg := RoleAverages(mutCnt, mutSum, sampleSize);
      intAvg := RoleAverages(intCnt, intSum, sampleSize);
    }

    /**
     * The three fraction ("percent") tables: count over sample size, not
     * times 100. Once a seed has been tabulated each adds up to 1.
     */
    method Fractions() returns (manPct: array2<real>, mutPct: array2<real>, intPct: array2<real>, defined: bool)
      requires Valid()
      ensures fresh(manPct) && fresh(mutPct) && fresh(intPct)
      ensures Shaped(manPct) && Shaped(mutPct) && Shaped(intPct)
      ensures defined <==> sampleSize != 0
      ensures defined ==> forall i, j :: 0 <= i < TableRange && 0 <= j < TableRange ==>
        && manPct[i, j] == manCnt[i, j] as real / sampleSize as real
        && mutPct[i, j] == mutCnt[i, j] as real / sampleSize as real
        && intPct[i, j] == intCnt[i, j] as real / sampleSize as real
      ensures defined ==> RealTableSum(Cells(manPct)) == 1.0
      ensures defined ==> RealTableSum(Cells(mutPct)) == 1.0
      ensures defined ==> RealTableSum(Cells(intPct)) == 1.0
    {
      TallyInvariant(history, ManagersWorkers);
      TallyInvariant(history, OutsidersInsiders);
      TallyInvariant(history, SoloistsEnsembles);
      manPct, defined := RoleFractions(manCnt, manSum, sampleSize);
      mutPct, defined := RoleFractions(mutCnt, mutSum, sampleSize);
      intPct, defined := RoleFractions(intCnt, intSum, sampleSize);
    }
  }

  /** The average table of one role pair whose tables keep the invariant. */
  method RoleAverages(cnt: array2<int>, sum: array2<int>, ghost n: int) returns (avg: array2<real>)
    requires Shaped(cnt) && Shaped(sum) && RoleInvariant(Cells(cnt), Cells(sum), n)
    ensures fresh(avg) && Shaped(avg)
    ensures forall i, j :: 0 <= i < TableRange && 0 <= j < TableRange ==> avg[i, j] == Average(sum[i, j], cnt[i, j])
    ensures WeightedSum(Cells(avg), Cells(cnt)) == TableSum(Cells(sum)) as real
  {
    avg := AverageTable(cnt, sum);
    WeightedAveragesRecoverTotal(Cells(avg), Cells(cnt), Cells(sum));
  }

  /** The fraction table of one role pair whose tables keep the invariant with sample size `n`. */
  method RoleFractions(cnt: array2<int>, ghost sum: array2<int>, n: int) returns (frac: array2<real>, defined: bool)
    requires Shaped(cnt) && Shaped(sum) && RoleInvariant(Cells(cnt), Cells(sum), n)
    ensures fresh(frac) && Shaped(frac)
    ensures defined <==> n != 0
    ensures defined ==> forall i, j :: 0 <= i < TableRange && 0 <= j < TableRange ==>
      frac[i, j] == cnt[i, j] as real / n as real
    ensures defined ==> RealTableSum(Cells(frac)) == 1.0
  {
    frac, defined := FractionTable(cnt, n);
    if defined {
      NonNegativeSum(Cells(cnt), n);
      FractionsSumToOne(Cells(frac), Cells(cnt), n);
    }
  }

  /** Freshly zeroed tables are the tally of no seed. */
  lemma ZeroTablesInvariant(cnt: array2<int>, sum: array2<int>, p: Pair)
    requires cnt != sum && Shaped(cnt) && Shaped(sum)
    requires forall i, j :: 0 <= i < TableRange && 0 <= j < TableRange ==> cnt[i, j] == 0 && sum[i, j] == 0
    ensures AllZero(Cells(cnt)) && AllZero(Cells(sum))
    ensures PairValid(cnt, sum, [], p)
  {
    TallyOfNothing(Cells(cnt), Cells(sum), p);
  }

  lemma {:induction false} RowSumNonNegative(row: seq<int>)
    requires forall j :: 0 <= j < |row| ==> row[j] >= 0
    ensures RowSum(row) >= 0
  {
    if row != [] {
      RowSumNonNegative(row[1..]);
    }
  }

  /** A table of non-negative counts has a non-negative sum. */
  lemma {:induction false} NonNegativeSum(g: Grid, n: int)
    requires NonNegative(g) && TableSum(g) == n
    ensures n >= 0
  {
    if g != [] {
      RowSumNonNegative(g[0]);
      assert NonNegative(g[1..]) by {
        forall i, j | 0 <= i < |g[1..]| && 0 <= j < |g[1..][i]| ensures g[1..][i][j] >= 0 {
          assert g[1..][i] == g[i + 1];
        }
      }
      NonNegativeSum(g[1..], TableSum(g[1..]));
    }
  }
}
