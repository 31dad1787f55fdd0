/**
 * fusion_tables_singleton.py: tabulate the role statistics of every fusion
 * root that has no true children and at most MaxParts parts.
 */
module Singleton {
  import opened Grids
  import opened FusionTables
  import Prolific

  /** The root passes both filters of the singleton script. */
  predicate Accepts(r: FusionRoot) {
    r.trueChildren == 0 && r.numParts <= MaxParts
  }

  /** No fusion root is tabulated by both scripts: the two child filters are complementary. */
  lemma ScriptsAreDisjoint(r: FusionRoot)
    ensures !(Accepts(r) && Prolific.Accepts(r))
    ensures r.numParts <= MaxParts ==> (Accepts(r) <==> !Prolific.Accepts(r))
  {
  }

  /**
   * One iteration of the loop over fusion roots: skip the root, or tabulate
   * its own statistics `statsOf(r.id)`.
   */
  method TabulateSingleton(t: Tables, r: FusionRoot, statsOf: int -> SeedStats) returns (tabulated: bool)
    requires t.Valid()
    requires Accepts(r) ==> Fits(statsOf(r.id))
    modifies t, t.manCnt, t.manSum, t.mutCnt, t.mutSum, t.intCnt, t.intSum
    ensures t.Valid()
    ensures tabulated <==> Accepts(r)
    ensures tabulated ==> RecordedOnce(t, statsOf(r.id))
    ensures !tabulated ==> Untouched(t)
    ensures t.history == old(t.history) + if tabulated then [statsOf(r.id)] else []
  {
    if r.trueChildren > 0 {
      return false;
    }
    if r.numParts > MaxParts {
      return false;
    }
    t.Record(statsOf(r.id));
    tabulated := true;
  }

  /** The statistics the singleton script records for `rs`, in order: each accepted root's own. */
  function AcceptedStats(rs: seq<FusionRoot>, statsOf: int -> SeedStats): (ss: seq<SeedStats>)
    ensures |ss| <= |rs|
  {
    if rs == [] then []
    else AcceptedStats(rs[..|rs| - 1], statsOf) + if Accepts(rs[|rs| - 1]) then [statsOf(rs[|rs| - 1].id)] else []
  }

  /** One seed is recorded per accepted root. */
  lemma {:induction false} AcceptedStatsLength(rs: seq<FusionRoot>, statsOf: int -> SeedStats)
    ensures |AcceptedStats(rs, statsOf)| == Count(rs, Accepts)
  {
    if rs != [] {
      AcceptedStatsLength(rs[..|rs| - 1], statsOf);
      CountStep(rs, Accepts, |rs| - 1);
      assert rs[..|rs|] == rs;
    }
  }

  lemma AcceptedStatsStep(rs: seq<FusionRoot>, statsOf: int -> SeedStats, i: nat)
    requires i < |rs|
    ensures AcceptedStats(rs[..i + 1], statsOf) ==
      AcceptedStats(rs[..i], statsOf) + if Accepts(rs[i]) then [statsOf(rs[i].id)] else []
  {
    assert rs[..i + 1][..i] == rs[..i];
  }

  /** After root `i`, a history holding `h0` then the statistics of `rs[..i]` holds those of `rs[..i + 1]`. */
  lemma HistoryStep(h0: seq<SeedStats>, h: seq<SeedStats>, h': seq<SeedStats>, rs: seq<FusionRoot>,
                    statsOf: int -> SeedStats, i: nat)
    requires i < |rs|
    requires h == h0 + AcceptedStats(rs[..i], statsOf)
    requires h' == h + if Accepts(rs[i]) then [statsOf(rs[i].id)] else []
    ensures h' == h0 + AcceptedStats(rs[..i + 1], statsOf)
  {
    AcceptedStatsStep(rs, statsOf, i);
    if Accepts(rs[i]) {
      assert h0 + AcceptedStats(rs[..i], statsOf) + [statsOf(rs[i].id)]
          == h0 + (AcceptedStats(rs[..i], statsOf) + [statsOf(rs[i].id)]);
    } else {
      assert AcceptedStats(rs[..i], statsOf) + [] == AcceptedStats(rs[..i], statsOf);
    }
  }

  /**
   * The loop over the fusion roots of one run: the sample size grows by the
   * number accepted, and the tables gain exactly the accepted roots' statistics.
   */
  method TabulateRun(t: Tables, rs: seq<FusionRoot>, statsOf: int -> SeedStats)
    requires t.Valid()
    requires forall k :: 0 <= k < |rs| ==> (Accepts(rs[k]) ==> Fits(statsOf(rs[k].id)))
    modifies t, t.manCnt, t.manSum, t.mutCnt, t.mutSum, t.intCnt, t.intSum
    ensures t.Valid()
    ensures t.sampleSize == old(t.sampleSize) + Count(rs, Accepts)
    ensures t.history == old(t.history) + AcceptedStats(rs, statsOf)
    ensures Gained(t, AcceptedStats(rs, statsOf))
  {
    for i := 0 to |rs|
      invariant t.Valid()
      invariant t.sampleSize == old(t.sampleSize) + Count(rs[..i], Accepts)
      invariant t.history == old(t.history) + AcceptedStats(rs[..i], statsOf)
    {
      ghost var before := t.history;
      var tabulated := TabulateSingleton(t, rs[i], statsOf);
      CountStep(rs, Accepts, i);
      HistoryStep(old(t.history), before, t.history, rs, statsOf, i);
    }
    assert rs[..|rs|] == rs;
    ghost var added := AcceptedStats(rs, statsOf);
    ArrayGain(t.manCnt, t.manSum, old(Cells(t.manCnt)), old(Cells(t.manSum)), old(t.history), added, ManagersWorkers);
    ArrayGain(t.mutCnt, t.mutSum, old(Cells(t.mutCnt)), old(Cells(t.mutSum)), old(t.history), added, OutsidersInsiders);
    ArrayGain(t.intCnt, t.intSum, old(Cells(t.intCnt)), old(Cells(t.intSum)), old(t.history), added, SoloistsEnsembles);
  }
}
