/**
 * fusion_parts_photos.py: for every fusion record, dump the seed's region
 * map as text (transposed, for consistency with the viewer), and for every
 * region of the map make a 1-versus-rest colouring of a copy of the seed
 * and name the two photos taken of it.
 */
module PartsPhotos {
  import opened Wrappers
  import opened Grids
  import opened Decimal

  /** Steps the management rule runs before the second photo. */
  const NumSteps: nat := 1000

  /**
   * `zip(*[iter(items)] * 4)`: group k is items 4k..4k+3, and a trailing
   * group of fewer than four items is dropped.
   */
  function Quadruples<T>(items: seq<T>): (r: seq<(T, T, T, T)>)
    ensures |r| == |items| / 4
    ensures forall k :: 0 <= k < |r| ==>
      r[k] == (items[4 * k], items[4 * k + 1], items[4 * k + 2], items[4 * k + 3])
  {
    if |items| < 4 then [] else [(items[0], items[1], items[2], items[3])] + Quadruples(items[4..])
  }

  /** Items after the last complete group never reach a group. */
  lemma TrailingItemsDropped<T>(items: seq<T>, tail: seq<T>)
    requires |items| % 4 == 0 && |tail| < 4
    ensures Quadruples(items + tail) == Quadruples(items)
  {
    var a, b := Quadruples(items + tail), Quadruples(items);
    assert |a| == |b|;
    forall k | 0 <= k < |a| ensures a[k] == b[k] {
      assert 4 * k + 3 < |items|;
    }
  }

  /** The values written in exactly four characters each. */
  predicate FitsField(v: int) {
    -999 <= v <= 9999
  }

  /**
   * Line `y` of the dump up to row `x`: the `"{:4d}"` fields of
   * `map[0][y]`, ..., `map[x - 1][y]`, one after another.
   */
  function DumpFields(regions: array2<int>, y: nat, x: nat): string
    reads regions
    requires y < regions.Length1 && x <= regions.Length0
  {
    if x == 0 then "" else DumpFields(regions, y, x - 1) + Field4(regions[x - 1, y])
  }

  /** Appending one four-character field keeps the earlier fields in place. */
  lemma FieldOfAppended(head: string, f: string, n: nat, k: nat)
    requires |head| == 4 * n && |f| == 4 && k <= n
    ensures 4 * k + 4 <= |head + f|
    ensures (head + f)[4 * k .. 4 * k + 4] == if k < n then head[4 * k .. 4 * k + 4] else f
  {
  }

  /** When every value fits, field `k` of the line is characters 4k..4k+3. */
  lemma {:induction false} DumpFieldsAt(regions: array2<int>, y: nat, x: nat)
    requires y < regions.Length1 && x <= regions.Length0
    requires forall i :: 0 <= i < x ==> FitsField(regions[i, y])
    ensures |DumpFields(regions, y, x)| == 4 * x
    ensures forall k :: 0 <= k < x ==> DumpFields(regions, y, x)[4 * k .. 4 * k + 4] == Field4(regions[k, y])
  {
    if x > 0 {
      DumpFieldsAt(regions, y, x - 1);
      FieldWidth(regions[x - 1, y]);
      var head := DumpFields(regions, y, x - 1);
      forall k | 0 <= k < x ensures DumpFields(regions, y, x)[4 * k .. 4 * k + 4] == Field4(regions[k, y]) {
        FieldOfAppended(head, Field4(regions[x - 1, y]), x - 1, k);
      }
    }
  }

  /**
   * The region map written line by line: line `y` holds the fields
   * `map[0][y]`, `map[1][y]`, ... and a newline.
   */
  method DumpRegionMap(regions: array2<int>) returns (lines: seq<string>)
    ensures |lines| == regions.Length1
    ensures forall y :: 0 <= y < |lines| ==> lines[y] == DumpFields(regions, y, regions.Length0) + "\n"
  {
    lines := [];
    for y := 0 to regions.Length1
      invariant |lines| == y
      invariant forall k :: 0 <= k < y ==> lines[k] == DumpFields(regions, k, regions.Length0) + "\n"
    {
      var line := "";
      for x := 0 to regions.Length0
        invariant line == DumpFields(regions, y, x)
      {
        line := line + Field4(regions[x, y]);
      }
      lines := lines + [line + "\n"];
    }
  }

  /**
   * The dump is the transpose of the map: when every region number fits in
   * four characters, line `y` has one field per row and field `x` of it
   * reads back as `map[x][y]`.
   */
  lemma DumpIsTranspose(regions: array2<int>, y: nat)
    requires y < regions.Length1
    requires forall x :: 0 <= x < regions.Length0 ==> FitsField(regions[x, y])
    ensures |DumpFields(regions, y, regions.Length0) + "\n"| == 4 * regions.Length0 + 1
    ensures forall x :: 0 <= x < regions.Length0 ==>
      ParseField((DumpFields(regions, y, regions.Length0) + "\n")[4 * x .. 4 * x + 4]) == Some(regions[x, y])
  {
    var fields := DumpFields(regions, y, regions.Length0);
    DumpFieldsAt(regions, y, regions.Length0);
    forall x | 0 <= x < regions.Length0
      ensures ParseField((fields + "\n")[4 * x .. 4 * x + 4]) == Some(regions[x, y])
    {
      assert (fields + "\n")[4 * x .. 4 * x + 4] == fields[4 * x .. 4 * x + 4];
      FieldRoundTrip(regions[x, y]);
    }
  }

  /** The largest value of a row, none for an empty row. */
  function RowMax(r: seq<int>): (m: Option<int>)
    ensures m.None? <==> r == []
    ensures m.Some? ==> (exists j :: 0 <= j < |r| && r[j] == m.value) &&
                        forall j :: 0 <= j < |r| ==> r[j] <= m.value
  {
    if r == [] then None
    else match RowMax(r[1..])
      case None => Some(r[0])
      case Some(m) => if r[0] >= m then Some(r[0]) else Some(m)
  }

  /** `np.amax`: the largest cell of the grid, none when it has no cells. */
  function GridMax(g: seq<seq<int>>): (m: Option<int>)
    ensures m.None? <==> forall i :: 0 <= i < |g| ==> g[i] == []
    ensures m.Some? ==> (exists i, j :: 0 <= i < |g| && 0 <= j < |g[i]| && g[i][j] == m.value) &&
                        forall i, j :: 0 <= i < |g| && 0 <= j < |g[i]| ==> g[i][j] <= m.value
  {
    if g == [] then None
    else
      var rest := GridMax(g[1..]);
      assert forall i :: 1 <= i < |g| ==> g[i] == g[1..][i - 1];
      match RowMax(g[0])
      case None => rest
      case Some(a) =>
        match rest
        case None => Some(a)
        case Some(b) => if a >= b then Some(a) else Some(b)
  }

  /** The state a cell in state `c` takes in the colouring for `target`, where its region is `region`. */
  function RecolourCell(c: int, region: int, target: int): int {
    if region == target && (c == 1 || c == 2) then 1
    else if region != target && (c == 1 || c == 2) then 2
    else c
  }

  /** A border cell (region -1) that is not purple (state 5): the script's assertion fails on it. */
  predicate BadBorder(c: int, region: int) {
    region == -1 && c != 1 && c != 2 && c != 5
  }

  ghost predicate NoBadBorder(cells: array2<int>, regions: array2<int>)
    reads cells, regions
    requires regions.Length0 == cells.Length0 && regions.Length1 == cells.Length1
  {
    forall x, y :: 0 <= x < cells.Length0 && 0 <= y < cells.Length1 ==> !BadBorder(cells[x, y], regions[x, y])
  }

  /** `(x, y)` is the first bad border cell in the scan order: rows first, then columns. */
  ghost predicate FirstBadBorder(cells: array2<int>, regions: array2<int>, x: int, y: int)
    reads cells, regions
    requires regions.Length0 == cells.Length0 && regions.Length1 == cells.Length1
  {
    && 0 <= x < cells.Length0 && 0 <= y < cells.Length1
    && BadBorder(cells[x, y], regions[x, y])
    && forall i, j :: 0 <= i < cells.Length0 && 0 <= j < cells.Length1 && (i < x || (i == x && j < y)) ==>
         !BadBorder(cells[i, j], regions[i, j])
  }

  /** `colouring` is the seed `cells` recoloured for `target`, cell by cell. */
  ghost predicate Coloured(colouring: array2<int>, cells: array2<int>, regions: array2<int>, target: int)
    reads colouring, cells, regions
  {
    && colouring.Length0 == cells.Length0 == regions.Length0
    && colouring.Length1 == cells.Length1 == regions.Length1
    && forall x, y :: 0 <= x < cells.Length0 && 0 <= y < cells.Length1 ==>
         colouring[x, y] == RecolourCell(cells[x, y], regions[x, y], target)
  }

  /** `image` is the contents of a colouring of the seed `cells` for `target`. */
  ghost predicate ColouredImage(image: Grid, cells: array2<int>, regions: array2<int>, target: int)
    reads cells, regions
  {
    && regions.Length0 == cells.Length0 && regions.Length1 == cells.Length1
    && IsShape(image, cells.Length0, cells.Length1)
    && forall x, y :: 0 <= x < cells.Length0 && 0 <= y < cells.Length1 ==>
         image[x][y] == RecolourCell(cells[x, y], regions[x, y], target)
  }

  /** The contents of a colouring are its image. */
  lemma ColouringImage(colouring: array2<int>, cells: array2<int>, regions: array2<int>, target: int)
    requires Coloured(colouring, cells, regions, target)
    ensures ColouredImage(Cells(colouring), cells, regions, target)
  {
    CellsAt(colouring);
  }

  /** How the scan of one colouring ends. */
  datatype Scan = Clean | BorderMismatch(x: nat, y: nat)

  /**
   * The colouring for one target region: a deep copy of the seed's cells,
   * recoloured in place. The seed's own cells are not changed. The scan
   * stops at the first bad border cell, where the script's assertion fails.
   */
  method Recolour(cells: array2<int>, regions: array2<int>, target: int) returns (colouring: array2<int>, scan: Scan)
    requires regions.Length0 == cells.Length0 && regions.Length1 == cells.Length1
    ensures fresh(colouring) && colouring.Length0 == cells.Length0 && colouring.Length1 == cells.Length1
    ensures scan.Clean? <==> NoBadBorder(cells, regions)
    ensures scan.BorderMismatch? ==> FirstBadBorder(cells, regions, scan.x, scan.y)
    ensures scan.Clean? ==> Coloured(colouring, cells, regions, target)
  {
    colouring := new int[cells.Length0, cells.Length1]((i, j)
      reads cells requires 0 <= i < cells.Length0 && 0 <= j < cells.Length1 => cells[i, j]);
    for x := 0 to cells.Length0
      invariant forall i, j :: 0 <= i < x && 0 <= j < cells.Length1 ==>
        !BadBorder(cells[i, j], regions[i, j]) && colouring[i, j] == RecolourCell(cells[i, j], regions[i, j], target)
      invariant forall i, j :: x <= i < cells.Length0 && 0 <= j < cells.Length1 ==> colouring[i, j] == cells[i, j]
    {
      for y := 0 to cells.Length1
        invariant forall i, j :: 0 <= i < x && 0 <= j < cells.Length1 ==>
          !BadBorder(cells[i, j], regions[i, j]) && colouring[i, j] == RecolourCell(cells[i, j], regions[i, j], target)
        invariant forall j :: 0 <= j < y ==>
          !BadBorder(cells[x, j], regions[x, j]) && colouring[x, j] == RecolourCell(cells[x, j], regions[x, j], target)
        invariant forall i, j :: x <= i < cells.Length0 && 0 <= j < cells.Length1 && (i > x || j >= y) ==>
          colouring[i, j] == cells[i, j]
      {
        var c := colouring[x, y];
        if regions[x, y] == target && (c == 1 || c == 2) {
          colouring[x, y] := 1;
        } else if regions[x, y] != target && (c == 1 || c == 2) {
          colouring[x, y] := 2;
        } else if regions[x, y] == -1 {
          if c != 5 {
            return colouring, BorderMismatch(x, y);
          }
        }
      }
    }
    scan := Clean;
  }

  /** Name of the text file the region map is dumped to. */
  function MapPath(dir: string, leaf: string, birth: int): string {
    dir + "/" + leaf + "-birth" + IntToString(birth) + "-region-map.txt"
  }

  /** Name of the photo of the colouring for `target` after `steps` steps. */
  function PhotoPath(dir: string, leaf: string, birth: int, target: int, steps: int): string {
    dir + "/" + leaf + "-birth" + IntToString(birth) + "-target" + IntToString(target) + "-steps" + IntToString(steps) + ".png"
  }

  lemma Assoc<T>(a: seq<T>, b: seq<T>, c: seq<T>)
    ensures a + (b + c) == a + b + c
  {
  }

  lemma PrefixCancel<T>(p: seq<T>, a: seq<T>, b: seq<T>)
    requires p + a == p + b
    ensures a == b
  {
    assert a == (p + a)[|p|..];
    assert b == (p + b)[|p|..];
  }

  /** The part of a photo name that follows `-target`. */
  function PhotoSuffix(target: nat, steps: nat): string {
    NatToString(target) + ("-steps" + (NatToString(steps) + ".png"))
  }

  lemma PhotoPathSplit(dir: string, leaf: string, birth: int, t: nat, s: nat)
    ensures PhotoPath(dir, leaf, birth, t, s) ==
      (dir + "/" + leaf + "-birth" + IntToString(birth) + "-target") + PhotoSuffix(t, s)
  {
    var p := dir + "/" + leaf + "-birth" + IntToString(birth) + "-target";
    var x, y := NatToString(t), NatToString(s);
    Assoc(p, x, "-steps" + (y + ".png"));
    Assoc(p + x, "-steps", y + ".png");
    Assoc(p + x + "-steps", y, ".png");
  }

  /** Within one record, a photo's name determines its target and its step count. */
  lemma PhotoPathInjective(dir: string, leaf: string, birth: int, t1: nat, s1: nat, t2: nat, s2: nat)
    requires PhotoPath(dir, leaf, birth, t1, s1) == PhotoPath(dir, leaf, birth, t2, s2)
    ensures t1 == t2 && s1 == s2
  {
    PhotoPathSplit(dir, leaf, birth, t1, s1);
    PhotoPathSplit(dir, leaf, birth, t2, s2);
    PrefixCancel(dir + "/" + leaf + "-birth" + IntToString(birth) + "-target", PhotoSuffix(t1, s1), PhotoSuffix(t2, s2));
    var w1, w2 := "-steps" + (NatToString(s1) + ".png"), "-steps" + (NatToString(s2) + ".png");
    DigitPrefixOf(NatToString(t1), w1);
    DigitPrefixOf(NatToString(t2), w2);
    NatRoundTrip(t1);
    NatRoundTrip(t2);
    PrefixCancel(NatToString(t1), w1, w2);
    PrefixCancel("-steps", NatToString(s1) + ".png", NatToString(s2) + ".png");
    DigitPrefixOf(NatToString(s1), ".png");
    DigitPrefixOf(NatToString(s2), ".png");
    NatRoundTrip(s1);
    NatRoundTrip(s2);
  }

  /** One photo request: the file name, the image of the colouring photographed, its target and step count. */
  datatype Photo = Photo(path: string, image: Grid, target: int, steps: nat)

  /** The target and step count of the `k`-th photo of a record: two per target, from target 1. */
  function PhotoTarget(k: nat): nat {
    k / 2 + 1
  }

  function PhotoSteps(k: nat): nat {
    if k % 2 == 0 then 0 else NumSteps
  }

  /** The photos of a record have pairwise distinct names. */
  lemma PhotoPathsDistinct(dir: string, leaf: string, birth: int, photos: seq<Photo>)
    requires forall k :: 0 <= k < |photos| ==> photos[k].path == PhotoPath(dir, leaf, birth, PhotoTarget(k), PhotoSteps(k))
    ensures forall i, j :: 0 <= i < j < |photos| ==> photos[i].path != photos[j].path
  {
    forall i, j | 0 <= i < j < |photos| ensures photos[i].path != photos[j].path {
      if photos[i].path == photos[j].path {
        PhotoPathInjective(dir, leaf, birth, PhotoTarget(i), PhotoSteps(i), PhotoTarget(j), PhotoSteps(j));
      }
    }
  }

  /** How processing one fusion record ends. */
  datatype RecordOutcome =
    | Done
    | AssertionFailed(target: int, x: nat, y: nat)  // the assertion on a border cell fails
    | EmptyRegionMap                                // `np.amax` of an empty map raises ValueError

  /** Some region number is at least 1, so there is at least one target region. */
  ghost predicate HasTarget(regions: array2<int>)
    reads regions
  {
    exists x, y :: 0 <= x < regions.Length0 && 0 <= y < regions.Length1 && regions[x, y] >= 1
  }

  /** The `k`-th photo of a record whose birth number is `birth`. */
  ghost predicate PhotoOf(ph: Photo, k: nat, cells: array2<int>, regions: array2<int>, dir: string, leaf: string, birth: int)
    reads cells, regions
  {
    && ph.path == PhotoPath(dir, leaf, birth, PhotoTarget(k), PhotoSteps(k))
    && ph.target == PhotoTarget(k) && ph.steps == PhotoSteps(k)
    && ColouredImage(ph.image, cells, regions, ph.target)
  }

  /** The two photos taken of the colouring for `target`: before and after the management rule runs. */
  function Snapshots(dir: string, leaf: string, birth: int, target: nat, image: Grid): (shots: seq<Photo>)
    ensures |shots| == 2
  {
    [Photo(PhotoPath(dir, leaf, birth, target, 0), image, target, 0),
     Photo(PhotoPath(dir, leaf, birth, target, NumSteps), image, target, NumSteps)]
  }

  /** Photographing target `target` extends the numbered photos of targets 1..target-1 by two. */
  lemma SnapshotsAppended(photos: seq<Photo>, target: nat, image: Grid, cells: array2<int>, regions: array2<int>,
                          dir: string, leaf: string, birth: int)
    requires |photos| == 2 * (target - 1) && target >= 1
    requires forall k :: 0 <= k < |photos| ==> PhotoOf(photos[k], k, cells, regions, dir, leaf, birth)
    requires ColouredImage(image, cells, regions, target)
    ensures forall k :: 0 <= k < |photos| + 2 ==>
      PhotoOf((photos + Snapshots(dir, leaf, birth, target, image))[k], k, cells, regions, dir, leaf, birth)
  {
    var shots := Snapshots(dir, leaf, birth, target, image);
    var all := photos + shots;
    forall k | 0 <= k < |photos| + 2
      ensures PhotoOf(all[k], k, cells, regions, dir, leaf, birth)
    {
      if k < |photos| {
        assert all[k] == photos[k];
      } else {
        assert PhotoTarget(k) == target;
        assert all[k] == shots[k - |photos|];
      }
    }
  }

  /**
   * The loop over the target regions 1..numRegions: a colouring for each,
   * photographed before and after the management rule runs.
   */
  method PhotographTargets(cells: array2<int>, regions: array2<int>, numRegions: nat, dir: string, leaf: string, birth: int)
    returns (photos: seq<Photo>, scan: Scan)
    requires regions.Length0 == cells.Length0 && regions.Length1 == cells.Length1
    ensures scan.Clean? <==> numRegions == 0 || NoBadBorder(cells, regions)
    ensures scan.BorderMismatch? ==> FirstBadBorder(cells, regions, scan.x, scan.y) && photos == []
    ensures scan.Clean? ==> |photos| == 2 * numRegions
    ensures forall k :: 0 <= k < |photos| ==> PhotoOf(photos[k], k, cells, regions, dir, leaf, birth)
  {
    photos := [];
    for target := 1 to numRegions + 1
      invariant |photos| == 2 * (target - 1)
      invariant target > 1 ==> NoBadBorder(cells, regions)
      invariant forall k :: 0 <= k < |photos| ==> PhotoOf(photos[k], k, cells, regions, dir, leaf, birth)
    {
      var colouring, s := Recolour(cells, regions, target);
      if s.BorderMismatch? {
        return photos, s;
      }
      ColouringImage(colouring, cells, regions, target);
      SnapshotsAppended(photos, target, Cells(colouring), cells, regions, dir, leaf, birth);
      photos := photos + Snapshots(dir, leaf, birth, target, Cells(colouring));
    }
    scan := Clean;
  }

  /**
   * One pass of the loop over fusion records: the record's seed `cells`
   * with birth number `n` and its region map `regions` (computed outside
   * this script). Returns the dump file's name and lines, and the photos
   * in the order they are taken.
   */
  method ProcessFusionRecord(cells: array2<int>, regions: array2<int>, n: int, popSize: int, dir: string, leaf: string)
    returns (mapPath: string, dump: seq<string>, photos: seq<Photo>, outcome: RecordOutcome)
    requires regions.Length0 == cells.Length0 && regions.Length1 == cells.Length1
    ensures mapPath == MapPath(dir, leaf, n + popSize)
    ensures |dump| == regions.Length1
    ensures forall y :: 0 <= y < |dump| ==> dump[y] == DumpFields(regions, y, regions.Length0) + "\n"
    ensures outcome.EmptyRegionMap? <==> regions.Length0 == 0 || regions.Length1 == 0
    ensures outcome.EmptyRegionMap? ==> photos == []
    ensures outcome.AssertionFailed? <==> HasTarget(regions) && !NoBadBorder(cells, regions)
    ensures outcome.AssertionFailed? ==>
      outcome.target == 1 && FirstBadBorder(cells, regions, outcome.x, outcome.y) && photos == []
    ensures outcome.Done? ==> |photos| == 2 * Regions(regions)
    ensures forall k :: 0 <= k < |photos| ==> PhotoOf(photos[k], k, cells, regions, dir, leaf, n + popSize)
    ensures forall i, j :: 0 <= i < j < |photos| ==> photos[i].path != photos[j].path
    ensures outcome.Done? <==> RecordDone(FusionRecord(cells, regions, n))
  {
    var birth := n + popSize;
    mapPath := MapPath(dir, leaf, birth);
    dump := DumpRegionMap(regions);
    var max := GridMax(Cells(regions));
    CellsAt(regions);
    if max.None? {
      return mapPath, dump, [], EmptyRegionMap;
    }
    var numRegions := if max.value >= 1 then max.value else 0;
    assert HasTarget(regions) <==> numRegions >= 1;
    var scan;
    photos, scan := PhotographTargets(cells, regions, numRegions, dir, leaf, birth);
    PhotoPathsDistinct(dir, leaf, birth, photos);
    if scan.BorderMismatch? {
      outcome := AssertionFailed(1, scan.x, scan.y);
    } else {
      outcome := Done;
    }
  }

  /**
   * One quadruple of the fusion list as this script uses it: the cells of
   * `s4`, its region map (computed outside this script) and its birth
   * number `n`.
   */
  datatype FusionRecord = FusionRecord(cells: array2<int>, regions: array2<int>, n: int)

  predicate SameShape(r: FusionRecord) {
    r.regions.Length0 == r.cells.Length0 && r.regions.Length1 == r.cells.Length1
  }

  /** Processing `r` ends normally: its map is not empty and no assertion fails. */
  ghost predicate RecordDone(r: FusionRecord)
    reads r.cells, r.regions
    requires SameShape(r)
  {
    && r.regions.Length0 != 0 && r.regions.Length1 != 0
    && !(HasTarget(r.regions) && !NoBadBorder(r.cells, r.regions))
  }

  /**
   * Which error, if any, `outcome` reports for `r`: an empty map exactly when
   * the map has no cell, and a failed assertion at target 1 on the first bad
   * border cell.
   */
  ghost predicate StopReason(r: FusionRecord, outcome: RecordOutcome)
    reads r.cells, r.regions
  {
    && SameShape(r)
    && (outcome.EmptyRegionMap? <==> r.regions.Length0 == 0 || r.regions.Length1 == 0)
    && (outcome.AssertionFailed? ==>
          outcome.target == 1 && FirstBadBorder(r.cells, r.regions, outcome.x, outcome.y))
  }

  /** What processing one fusion record writes: the region map dump's file name and lines, and the photos. */
  datatype RecordOutput = RecordOutput(mapPath: string, dump: seq<string>, photos: seq<Photo>)

  /**
   * `o` is what processing `r` writes: the dump named by `r`'s birth number
   * with one line per map column, the numbered photos of `r`'s colourings,
   * two photos per target region when the record ends normally, and no
   * photo when it does not.
   */
  ghost predicate Produced(o: RecordOutput, r: FusionRecord, popSize: int, dir: string, leaf: string)
    reads r.cells, r.regions
  {
    && SameShape(r)
    && o.mapPath == MapPath(dir, leaf, r.n + popSize)
    && |o.dump| == r.regions.Length1
    && (forall y :: 0 <= y < |o.dump| ==> o.dump[y] == DumpFields(r.regions, y, r.regions.Length0) + "\n")
    && (forall k :: 0 <= k < |o.photos| ==> PhotoOf(o.photos[k], k, r.cells, r.regions, dir, leaf, r.n + popSize))
    && (RecordDone(r) ==> |o.photos| == 2 * Regions(r.regions))
    && (!RecordDone(r) ==> o.photos == [])
  }

  /** Extends the run of normally ended records by one, away from the heap changes of the loop body. */
  lemma PrefixDone(records: seq<FusionRecord>, i: nat)
    requires i < |records| && forall k :: 0 <= k < |records| ==> SameShape(records[k])
    requires forall k :: 0 <= k < i ==> RecordDone(records[k])
    requires RecordDone(records[i])
    ensures forall k :: 0 <= k < i + 1 ==> RecordDone(records[k])
  {
  }

  /**
   * The loop over the fusion records of one run folder: each record is
   * processed in turn, and the first that ends abnormally ends the script.
   * `processed` records ended normally; when it is short of `|records|`,
   * record `processed` is the one that failed, with the failing `outcome`.
   * `outputs` holds what each record reached wrote, the failing one included.
   */
  method ProcessRecords(records: seq<FusionRecord>, popSize: int, dir: string, leaf: string)
    returns (processed: nat, outcome: RecordOutcome, outputs: seq<RecordOutput>)
    requires forall k :: 0 <= k < |records| ==> SameShape(records[k])
    ensures processed <= |records|
    ensures forall k :: 0 <= k < processed ==> RecordDone(records[k])
    ensures processed < |records| ==> !RecordDone(records[processed]) && !outcome.Done?
    ensures outcome.Done? <==> processed == |records|
    ensures processed < |records| ==> StopReason(records[processed], outcome)
    ensures |outputs| == if outcome.Done? then |records| else processed + 1
    ensures forall k :: 0 <= k < |outputs| ==> Produced(outputs[k], records[k], popSize, dir, leaf)
  {
    outputs := [];
    for i := 0 to |records|
      invariant forall k :: 0 <= k < i ==> RecordDone(records[k])
      invariant |outputs| == i
      invariant forall k :: 0 <= k < i ==> Produced(outputs[k], records[k], popSize, dir, leaf)
    {
      var out, o := ProcessRecord(records[i], popSize, dir, leaf);
      PrefixProduced(outputs, out, records, i, popSize, dir, leaf);
      outputs := outputs + [out];
      if !o.Done? {
        return i, o, outputs;
      }
      PrefixDone(records, i);
    }
    processed, outcome := |records|, Done;
  }

  /** Processes one record of the list, keeping what it wrote. */
  method ProcessRecord(r: FusionRecord, popSize: int, dir: string, leaf: string)
    returns (out: RecordOutput, outcome: RecordOutcome)
    requires SameShape(r)
    ensures Produced(out, r, popSize, dir, leaf)
    ensures outcome.Done? <==> RecordDone(r)
    ensures StopReason(r, outcome)
  {
    assert r == FusionRecord(r.cells, r.regions, r.n);
    var mapPath, dump, photos;
    mapPath, dump, photos, outcome := ProcessFusionRecord(r.cells, r.regions, r.n, popSize, dir, leaf);
    out := RecordOutput(mapPath, dump, photos);
  }

  /** Appends the output of record `i` to the outputs of the records before it. */
  lemma PrefixProduced(outputs: seq<RecordOutput>, out: RecordOutput, records: seq<FusionRecord>, i: nat,
                       popSize: int, dir: string, leaf: string)
    requires i == |outputs| && i < |records|
    requires forall k :: 0 <= k < i ==> Produced(outputs[k], records[k], popSize, dir, leaf)
    requires Produced(out, records[i], popSize, dir, leaf)
    ensures forall k :: 0 <= k < i + 1 ==> Produced((outputs + [out])[k], records[k], popSize, dir, leaf)
  {
    forall k | 0 <= k < i + 1
      ensures Produced((outputs + [out])[k], records[k], popSize, dir, leaf)
    {
      if k < |outputs| {
        assert (outputs + [out])[k] == outputs[k];
      }
    }
  }

  /** The number of target regions: the largest region number, or none when it is below 1. */
  function Regions(regions: array2<int>): (p: nat)
    reads regions
    ensures p > 0 <==> HasTarget(regions)
  {
    CellsAt(regions);
    match GridMax(Cells(regions))
    case None => 0
    case Some(m) => if m >= 1 then m else 0
  }
}
