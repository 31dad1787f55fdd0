/**
 * fusion_tables_prolific.py: for every fusion root that has true children
 * and at most MaxParts parts, pick the node of its descendant tree with the
 * most true children (the prolific node) and tabulate that node's role
 * statistics.
 */
module Prolific {
  import opened Wrappers
  import opened Grids
  import opened FusionTables

  /** One row of the descendant list: a node's id and its number of true children. */
  datatype Node = Node(id: int, children: int)

  /**
   * A fusion root with the rows of its descendant list, as computed by the
   * external path sampler (ascending by id, the root first).
   */
  datatype Family = Family(root: FusionRoot, descendants: seq<Node>)

  /** How the prolific script handles one fusion root. */
  datatype Outcome =
    | Skipped                               // no true children, or too many parts
    | Tabulated(selected: int, count: int)  // the prolific node and its child count
    | NoDescendantRows                      // empty descendant list: `[-1]` raises IndexError

  /** The root passes both filters of the prolific script. */
  predicate Accepts(r: FusionRoot) {
    r.trueChildren != 0 && r.numParts <= MaxParts
  }

  /**
   * `(id, count)` is the prolific node of the tree: `count` is at least the
   * root's and every row's number of children; if no row has strictly more
   * children than the root it is the root itself, otherwise it is the first
   * row, in list order, that has the most.
   */
  ghost predicate Selected(root: FusionRoot, rows: seq<Node>, id: int, count: int) {
    && count >= root.trueChildren
    && (forall k :: 0 <= k < |rows| ==> rows[k].children <= count)
    && (if count == root.trueChildren then id == root.id
        else exists k :: 0 <= k < |rows| && rows[k] == Node(id, count) &&
               forall j :: 0 <= j < k ==> rows[j].children < count)
  }

  /**
   * The prolific node as a value: the root's own id and child count, replaced
   * by each row, in order, that has strictly more children than the node so far.
   */
  function ProlificNode(root: FusionRoot, rows: seq<Node>): Node {
    if rows == [] then Node(root.id, root.trueChildren)
    else
      var q := ProlificNode(root, rows[..|rows| - 1]);
      if rows[|rows| - 1].children > q.children then rows[|rows| - 1] else q
  }

  /** The prolific node meets the selection rule. */
  lemma {:induction false} ProlificNodeIsSelected(root: FusionRoot, rows: seq<Node>)
    ensures Selected(root, rows, ProlificNode(root, rows).id, ProlificNode(root, rows).children)
  {
    if rows != [] {
      var init, last := rows[..|rows| - 1], rows[|rows| - 1];
      var q0 := ProlificNode(root, init);
      ProlificNodeIsSelected(root, init);
      assert forall k :: 0 <= k < |init| ==> init[k] == rows[k];
      if last.children <= q0.children && q0.children != root.trueChildren {
        var k :| 0 <= k < |init| && init[k] == Node(q0.id, q0.children) &&
                 forall j :: 0 <= j < k ==> init[j].children < q0.children;
        assert rows[k] == Node(q0.id, q0.children);
      }
    }
  }

  /** The scan for the prolific node: a later row replaces it only with strictly more children. */
  method SelectProlific(root: FusionRoot, rows: seq<Node>) returns (id: int, count: int)
    ensures Selected(root, rows, id, count)
    ensures Node(id, count) == ProlificNode(root, rows)
  {
    id, count := root.id, root.trueChildren;
    for j := 0 to |rows|
      invariant Selected(root, rows[..j], id, count)
    {
      if rows[j].children > count {
        id, count := rows[j].id, rows[j].children;
        assert rows[..j + 1][j] == Node(id, count);
      } else if count != root.trueChildren {
        var k :| 0 <= k < j && rows[..j][k] == Node(id, count) &&
                 forall i :: 0 <= i < k ==> rows[..j][i].children < count;
        assert rows[..j + 1][k] == Node(id, count);
      }
      assert forall k :: 0 <= k < j ==> rows[..j + 1][k] == rows[..j][k];
    }
    assert rows[..|rows|] == rows;
    ProlificNodeIsSelected(root, rows);
    SelectedIsUnique(root, rows, id, count, ProlificNode(root, rows).id, ProlificNode(root, rows).children);
  }

  /** The selection rule leaves no choice: at most one `(id, count)` is selected. */
  lemma SelectedIsUnique(root: FusionRoot, rows: seq<Node>, id1: int, count1: int, id2: int, count2: int)
    requires Selected(root, rows, id1, count1) && Selected(root, rows, id2, count2)
    ensures id1 == id2 && count1 == count2
  {
    if count1 != root.trueChildren {
      var k1 :| 0 <= k1 < |rows| && rows[k1] == Node(id1, count1) &&
                forall i :: 0 <= i < k1 ==> rows[i].children < count1;
      assert count1 <= count2;
      if count2 != root.trueChildren {
        var k2 :| 0 <= k2 < |rows| && rows[k2] == Node(id2, count2) &&
                  forall i :: 0 <= i < k2 ==> rows[i].children < count2;
        assert count2 <= count1;
        assert k1 < k2 ==> rows[k1].children < count2;
        assert k2 < k1 ==> rows[k2].children < count1;
      }
    }
  }

  /** The id in the last row of the descendant list (line 196 of fusion_tables_prolific.py); there is none in an empty list. */
  function LastId(rows: seq<Node>): (last: Option<int>)
    ensures last.None? <==> rows == []
    ensures last.Some? ==> exists k :: 0 <= k < |rows| && rows[k].id == last.value
  {
    if rows == [] then None else Some(rows[|rows| - 1].id)
  }

  /** Rows in strictly ascending id order, as the path sampler sorts them. */
  predicate Ascending(rows: seq<Node>) {
    forall i :: 0 < i < |rows| ==> rows[i - 1].id < rows[i].id
  }

  lemma {:induction false} AscendingToLast(rows: seq<Node>, k: nat)
    requires Ascending(rows) && k < |rows|
    ensures rows[k].id <= rows[|rows| - 1].id
    decreases |rows| - k
  {
    if k < |rows| - 1 {
      AscendingToLast(rows, k + 1);
    }
  }

  /** In an ascending list the last id is the largest: the most recently born node of the tree. */
  lemma LastIdIsMaximum(rows: seq<Node>)
    requires Ascending(rows) && rows != []
    ensures LastId(rows).Some?
    ensures forall k :: 0 <= k < |rows| ==> rows[k].id <= LastId(rows).value
  {
    forall k | 0 <= k < |rows| ensures rows[k].id <= LastId(rows).value {
      AscendingToLast(rows, k);
    }
  }

  /** The role statistics of the node selected for `f`, the only node queried, fit the tables. */
  ghost predicate SelectedFit(f: Family, statsOf: int -> SeedStats) {
    forall id, count :: Selected(f.root, f.descendants, id, count) ==> Fits(statsOf(id))
  }

  /**
   * What tabulating `f` demands of the statistics: only the selected node of
   * an accepted family with descendant rows must fit, since an empty list
   * fails before any statistic is queried.
   */
  ghost predicate ReadyToTabulate(f: Family, statsOf: int -> SeedStats) {
    Accepts(f.root) && f.descendants != [] ==> SelectedFit(f, statsOf)
  }

  /** An accepted root with no descendant rows: the script fails on it. */
  predicate Stuck(f: Family) {
    Accepts(f.root) && f.descendants == []
  }

  /** The root passes both filters: a named predicate on families, for counting. */
  predicate AcceptsFamily(f: Family) {
    Accepts(f.root)
  }

  /** The statistics the prolific script records for `f`: its prolific node's, if it has one to tabulate. */
  function ChosenOf(f: Family, statsOf: int -> SeedStats): seq<SeedStats> {
    if Accepts(f.root) && f.descendants != [] then [statsOf(ProlificNode(f.root, f.descendants).id)] else []
  }

  /** The statistics the prolific script records for `fs`, in order. */
  function ChosenStats(fs: seq<Family>, statsOf: int -> SeedStats): (ss: seq<SeedStats>)
    ensures |ss| <= |fs|
  {
    if fs == [] then [] else ChosenStats(fs[..|fs| - 1], statsOf) + ChosenOf(fs[|fs| - 1], statsOf)
  }

  /** A run without a stuck root records one seed per accepted root. */
  lemma {:induction false} ChosenStatsLength(fs: seq<Family>, statsOf: int -> SeedStats)
    requires Count(fs, Stuck) == 0
    ensures |ChosenStats(fs, statsOf)| == Count(fs, AcceptsFamily)
  {
    if fs != [] {
      var init := fs[..|fs| - 1];
      assert fs[..|fs|] == fs;
      CountStep(fs, Stuck, |fs| - 1);
      CountStep(fs, AcceptsFamily, |fs| - 1);
      ChosenStatsLength(init, statsOf);
    }
  }

  /** After family `i`, a history holding `h0` then the statistics of `fs[..i]` holds those of `fs[..i + 1]`. */
  lemma HistoryStep(h0: seq<SeedStats>, h: seq<SeedStats>, h': seq<SeedStats>, fs: seq<Family>,
                    statsOf: int -> SeedStats, i: nat)
    requires i < |fs|
    requires h == h0 + ChosenStats(fs[..i], statsOf)
    requires h' == h + ChosenOf(fs[i], statsOf)
    ensures h' == h0 + ChosenStats(fs[..i + 1], statsOf)
  {
    assert fs[..i + 1][..i] == fs[..i];
    assert h0 + ChosenStats(fs[..i], statsOf) + ChosenOf(fs[i], statsOf)
        == h0 + (ChosenStats(fs[..i], statsOf) + ChosenOf(fs[i], statsOf));
  }

  /**
   * One iteration of the loop over fusion roots (lines 152-257 of fusion_tables_prolific.py): skip the
   * root, or select the prolific node and tabulate its statistics.
   * `statsOf` stands for the three external role statistics of a seed.
   */
  method TabulateFamily(t: Tables, f: Family, statsOf: int -> SeedStats) returns (outcome: Outcome)
    requires t.Valid()
    requires ReadyToTabulate(f, statsOf)
    modifies t, t.manCnt, t.manSum, t.mutCnt, t.mutSum, t.intCnt, t.intSum
    ensures t.Valid()
    ensures outcome.Skipped? <==> !Accepts(f.root)
    ensures outcome.NoDescendantRows? <==> Accepts(f.root) && f.descendants == []
    ensures outcome.Tabulated? ==> Selected(f.root, f.descendants, outcome.selected, outcome.count)
    ensures outcome.Tabulated? ==> Node(outcome.selected, outcome.count) == ProlificNode(f.root, f.descendants)
    ensures outcome.Tabulated? ==> RecordedOnce(t, statsOf(outcome.selected))
    ensures !outcome.Tabulated? ==> Untouched(t)
    ensures t.sampleSize == old(t.sampleSize) + if outcome.Tabulated? then 1 else 0
    ensures t.history == old(t.history) + ChosenOf(f, statsOf)
  {
    if f.root.trueChildren == 0 {
      return Skipped;
    }
    if f.root.numParts > MaxParts {
      return Skipped;
    }
    if LastId(f.descendants).None? {
      return NoDescendantRows;
    }
    var id, count := SelectProlific(f.root, f.descendants);
    t.Record(statsOf(id));
    outcome := Tabulated(id, count);
  }

  /**
   * The loop over the fusion roots of one run (lines 144-257 of fusion_tables_prolific.py). It stops at
   * the first accepted root with an empty descendant list, where the script
   * fails. Otherwise the sample size grows by the number of accepted roots,
   * and the history by the statistics of their prolific nodes: every count
   * cell gains the number of those nodes whose statistics index it, and every
   * sum cell their growth.
   */
  method TabulateRun(t: Tables, fs: seq<Family>, statsOf: int -> SeedStats) returns (completed: bool)
    requires t.Valid()
    requires forall k :: 0 <= k < |fs| ==> ReadyToTabulate(fs[k], statsOf)
    modifies t, t.manCnt, t.manSum, t.mutCnt, t.mutSum, t.intCnt, t.intSum
    ensures t.Valid()
    ensures completed <==> forall k :: 0 <= k < |fs| && Accepts(fs[k].root) ==> fs[k].descendants != []
    ensures completed ==> t.sampleSize == old(t.sampleSize) + Count(fs, AcceptsFamily)
    ensures completed ==> t.history == old(t.history) + ChosenStats(fs, statsOf)
    ensures completed ==> Gained(t, ChosenStats(fs, statsOf))
  {
    for i := 0 to |fs|
      invariant t.Valid()
      invariant Count(fs[..i], Stuck) == 0
      invariant t.sampleSize == old(t.sampleSize) + Count(fs[..i], AcceptsFamily)
      invariant t.history == old(t.history) + ChosenStats(fs[..i], statsOf)
    {
      ghost var before := t.history;
      var outcome := TabulateFamily(t, fs[i], statsOf);
      CountStep(fs, AcceptsFamily, i);
      HistoryStep(old(t.history), before, t.history, fs, statsOf, i);
      if outcome.NoDescendantRows? {
        assert Stuck(fs[i]);
        return false;
      }
      CountStep(fs, Stuck, i);
    }
    assert fs[..|fs|] == fs;
    CountExtremes(fs, Stuck);
    ghost var added := ChosenStats(fs, statsOf);
    ArrayGain(t.manCnt, t.manSum, old(Cells(t.manCnt)), old(Cells(t.manSum)), old(t.history), added, ManagersWorkers);
    ArrayGain(t.mutCnt, t.mutSum, old(Cells(t.mutCnt)), old(Cells(t.mutSum)), old(t.history), added, OutsidersInsiders);
    ArrayGain(t.intCnt, t.intSum, old(Cells(t.intCnt)), old(Cells(t.intSum)), old(t.history), added, SoloistsEnsembles);
    completed := true;
  }
}
