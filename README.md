# Successful symbiotes: fusion tables and part photos

This project models three analysis scripts from the successful-symbiotes
experiments. In those experiments, seeds of a cellular automaton reproduce,
and a "fusion" joins several seeds (its "parts") into one.

- `fusion_tables_prolific.py`: for every fusion root that has children and
  at most five parts, it picks the most prolific node of the root's
  descendant tree. It then tabulates that node's role statistics:
  managers/workers, outsiders/insiders and soloists/ensembles. There is a
  count table and a growth-sum table of 6 x 6 cells per role pair, plus a
  running sample size. At the end it derives average tables and fraction
  tables.
- `fusion_tables_singleton.py`: the same tabulation for fusion roots that
  have no children, using the root's own statistics.
- `fusion_parts_photos.py`: it groups the fusion records four items at a
  time and writes each seed's region map to text, transposed. For every
  region it recolours a deep copy of the seed: red and blue cells become
  red in the region and blue elsewhere, border cells (region -1) included.
  A border cell in any other state must be purple, or an assertion fails.
  It then names the two photos taken of each colouring.

Modules:

- `Grids` (grids.dfy): the value view `Cells(a)` of an `array2`, sums over
  a table, and the single-cell `+=` (`Bump`) with its effect on the sum.
- `FusionTables` (fusion_tables.dfy): the data shared by both tabulation
  scripts:
  - the `Tables` class, whose six `array2<int>` tables and `sampleSize` are
    updated in place;
  - the seeds recorded so far (a ghost history), of which each pair of
    tables is the tally, and the invariant that follows from it;
  - the average and fraction tables.

  Both scripts contain the same table code, so the model defines it once.
- `Prolific` (prolific.dfy) and `Singleton` (singleton.dfy): the per-root
  filtering and selection, and the loop over the roots of one run.
- `Decimal` (decimal.dfy): Python's `str(int)` and `"{:4d}"`, with readers
  for both that are proved to invert them.
- `PartsPhotos` (parts_photos.dfy): quadruple grouping, the map dump, the
  region count, recolouring and photo names.
- `Wrappers` (wrappers.dfy): `Option`.

Calls into the helper module `model_functions`, which this model does not
cover, and into the Golly host are not modelled. Their results are
parameters:

- the root's true-child count and part count, in a `FusionRoot`;
- the `(id, num_children)` rows of the descendant list, from `longest_paths`;
- a function `statsOf` from a seed id to its three role statistics;
- the region map, from `region_map`;
- `pop_size`.

A `FusionRoot`'s `numParts` is the maximum of its region map.

The source's division `/` is Python 3 true division of two numpy integers.
It is modelled as division of `real`s.

## Model

| member | source | states |
|---|---|---|
| Grids.TableSumBump | fusion_tables_prolific.py:247-257 | `t[r, c] += d` on one cell raises the sum over all cells by exactly `d` |
| FusionTables.RecordKeepsInvariant | fusion_tables_prolific.py:184-257 | a tabulation keeps the count table non-negative and summing to the sample size, now one larger, and keeps empty count cells with empty sums |
| FusionTables.RecordCell | fusion_tables_prolific.py:247-249 | one role pair's update for a seed `s`: the count cell gains 1, the sum cell gains the growth, and every other cell of both tables is unchanged. Tables that held the tally of the seeds before now hold the tally of those seeds followed by `s` |
| FusionTables.Tables.constructor | fusion_tables_prolific.py:66-83 | all six tables start as zeros, with sample size 0 and no seed recorded; the tables are the tally of no seed |
| FusionTables.Tables.Record | fusion_tables_prolific.py:247-257 | one seed tabulated, in both scripts: the sample size gains 1 and the seed joins the recorded ones. `man[managers, workers]`, `mut[outsiders, insiders]` and `int[soloists, ensembles]` each gain 1 in the count table and the pair's two growths in the sum table. No other cell changes, and each pair of tables stays the tally of the recorded seeds |
| FusionTables.ZeroTablesInvariant | fusion_tables_prolific.py:66-83 | zeroed tables are the tally of no seed |
| FusionTables.TallyCells | fusion_tables_prolific.py:247-257 | in the tally of a list of seeds, count cell `(i, j)` holds the number of seeds whose statistics index it, and sum cell `(i, j)` the growth those seeds bring |
| FusionTables.CellTallyAppend | fusion_tables_prolific.py:247-257 | the count and the growth a cell gets from two lists of seeds in turn are the sums of what it gets from each |
| FusionTables.GrowthFollowsCount | fusion_tables_prolific.py:247-257 | a cell that no seed indexes gets no growth |
| FusionTables.CellCountsOfOne | fusion_tables_prolific.py:247-257 | a seed whose counts fit indexes exactly one cell of each pair of tables |
| FusionTables.TallyBump | fusion_tables_prolific.py:247-257 | one `+= 1` and `+= growth` at the seed's cell turns the tally of a list of seeds into the tally of that list with the seed appended |
| FusionTables.TallyOfNothing | fusion_tables_prolific.py:66-83 | tables of zeros are the tally of no seed |
| FusionTables.TallyInvariant | fusion_tables_prolific.py:184-257 | the tally of seeds that fit keeps the invariant: counts non-negative and summing to the number of seeds, and empty count cells with empty sums |
| FusionTables.TallyGain | fusion_tables_prolific.py:144-257 | going from the tally of one list of seeds to the tally of it followed by more, every count cell gains the number of added seeds that index it, and every sum cell their growth |
| FusionTables.ArrayGain | fusion_tables_prolific.py:144-257 | the same gain, stated cell by cell on the tables in place against their earlier contents |
| FusionTables.AverageTable | fusion_tables_prolific.py:267-282 | every average cell is sum/count, or 0 when the count is 0 |
| FusionTables.WeightedAveragesRecoverTotal | fusion_tables_prolific.py:267-282 | averages weighted by their counts add up to the total growth of the sum table: empty cells lose nothing |
| FusionTables.RoleAverages | fusion_tables_prolific.py:267-282 | the average table of one role pair, cell by cell, together with the weighted-sum identity |
| FusionTables.Tables.Averages | fusion_tables_prolific.py:267-282 | the three average tables cell by cell; weighted by the counts, each recovers its pair's total growth |
| FusionTables.FractionTable | fusion_tables_prolific.py:286-290 | every fraction cell is count / sample size, defined exactly when the sample size is not 0 |
| FusionTables.FractionsSumToOne | fusion_tables_prolific.py:286-290 | when the counts add up to the sample size `n > 0`, the fraction table adds up to 1 |
| FusionTables.RoleFractions | fusion_tables_prolific.py:286-290 | the fraction table of one role pair; when defined it adds up to 1 |
| FusionTables.Tables.Fractions | fusion_tables_prolific.py:286-290 | the three fraction tables are defined exactly when the sample size is not 0; each cell is count / sample size and each table adds up to 1 |
| FusionTables.NonNegativeSum | fusion_tables_prolific.py:286-290 | a table of non-negative counts has a non-negative sum, so a non-zero sample size is positive |
| FusionTables.Count | fusion_tables_prolific.py:152-184 | the reference count of the roots a filter accepts, which both `TabulateRun` methods measure the sample size's growth against: never more than the number of roots |
| FusionTables.CountExtremes | fusion_tables_prolific.py:152-184 | the count is 0 exactly when no root passes the filter, and equals the number of roots exactly when every root does |
| FusionTables.CountStep | fusion_tables_prolific.py:152-184 | one more root adds 1 to the count exactly when it is accepted, so the count moves in step with `sample_size += 1` |
| Prolific.SelectProlific | fusion_tables_prolific.py:203-214 | the selected count is at least the root's and every row's. The root is kept unless some row strictly exceeds it; otherwise the choice is the first row with the maximum. The choice is the node `ProlificNode` defines |
| Prolific.ProlificNodeIsSelected | fusion_tables_prolific.py:203-214 | the node reached by replacing the current choice with every later row that has strictly more children meets the selection rule |
| Prolific.SelectedIsUnique | fusion_tables_prolific.py:203-214 | the selection rule admits exactly one `(id, count)` |
| Prolific.LastId | fusion_tables_prolific.py:196 | the last row's id is present exactly when the descendant list is not empty |
| Prolific.LastIdIsMaximum | fusion_tables_prolific.py:171-196 | in the id-sorted descendant list, the last id is the largest |
| Prolific.TabulateFamily | fusion_tables_prolific.py:152-257 | requiring that the selected node's statistics index the tables when the root is accepted and its descendant list is not empty: a root is skipped with nothing changed exactly when it has no children or more than five parts. An accepted root with an empty list gives the `[-1]` failure, with nothing changed. Otherwise its prolific node is selected and recorded once |
| Prolific.TabulateRun | fusion_tables_prolific.py:144-257 | the loop completes exactly when no accepted root has an empty list. Then the sample size has grown by `Count` of the accepted roots, and the recorded seeds by their prolific nodes' statistics, in order. Every count cell has gained the number of those nodes whose statistics index it, and every sum cell their growth |
| Prolific.ChosenStatsLength | fusion_tables_prolific.py:144-257 | in a run with no stuck root, one seed is recorded per accepted root |
| Singleton.ScriptsAreDisjoint | fusion_tables_singleton.py:147-150 | no root is tabulated by both scripts; among roots with at most five parts, this script takes exactly those the prolific script skips |
| Singleton.TabulateSingleton | fusion_tables_singleton.py:147-207 | a root is tabulated exactly when it has no children and at most five parts; then its own statistics are recorded once and join the recorded seeds, otherwise nothing changes |
| Singleton.TabulateRun | fusion_tables_singleton.py:139-207 | over one run's roots, the sample size grows by exactly `Count` of the accepted roots, and the recorded seeds by their statistics, in order. Every count cell gains the number of accepted roots whose statistics index it, and every sum cell their growth |
| Singleton.AcceptedStatsLength | fusion_tables_singleton.py:139-207 | one seed is recorded per accepted root |
| Decimal.NatToString | fusion_parts_photos.py:163-164 | `str(n)` of a non-negative number is a non-empty run of digits without a leading zero |
| Decimal.IntToString | fusion_parts_photos.py:163-164 | `str(v)` is `str` of the magnitude, preceded by `-` for a negative `v` |
| Decimal.NatRoundTrip | fusion_parts_photos.py:163-164 | reading back `str(n)` gives `n` |
| Decimal.IntRoundTrip | fusion_parts_photos.py:107-108 | reading back `str(v)` gives `v` |
| Decimal.IntToStringInjective | fusion_parts_photos.py:107-108 | distinct integers have distinct `str` forms |
| Decimal.FieldRoundTrip | fusion_parts_photos.py:115 | a `"{:4d}"` field reads back as the integer written |
| Decimal.FieldWidth | fusion_parts_photos.py:115 | a `"{:4d}"` field is at least 4 characters wide, and exactly 4 for -999..9999 |
| Decimal.DigitPrefixOf | fusion_parts_photos.py:163-164 | the digits of a number are read off exactly when a non-digit follows them |
| PartsPhotos.Quadruples | fusion_parts_photos.py:91 | `|items| / 4` groups; group `k` is items `4k..4k+3` |
| PartsPhotos.TrailingItemsDropped | fusion_parts_photos.py:91 | fewer than four items after the last complete group never reach a group |
| PartsPhotos.DumpRegionMap | fusion_parts_photos.py:109-116 | one line per column `y` of the map, holding the fields of `map[0][y]`, `map[1][y]`, ... and a newline |
| PartsPhotos.DumpFieldsAt | fusion_parts_photos.py:113-116 | when every value fits, field `k` of a line occupies characters `4k..4k+3` |
| PartsPhotos.DumpIsTranspose | fusion_parts_photos.py:113-116 | when every value fits in four characters, line `y` has `4 * rows + 1` characters and field `x` of it reads back as `map[x][y]` |
| PartsPhotos.RowMax | fusion_parts_photos.py:122 | the largest value of a row is attained and bounds every value; none for an empty row |
| PartsPhotos.GridMax | fusion_parts_photos.py:122 | `np.amax`: the largest cell is attained and bounds every cell; none exactly when there is no cell |
| PartsPhotos.Regions | fusion_parts_photos.py:122-124 | there is a target region exactly when some region number is at least 1 |
| PartsPhotos.Recolour | fusion_parts_photos.py:127-154 | a fresh copy of the cells. The scan passes exactly when no border cell (region -1) has a state outside 1, 2 and 5, and otherwise stops at the first such cell in row-then-column order. When it passes, cells in state 1 or 2 become 1 in the target region and 2 elsewhere, and every other cell keeps its state |
| PartsPhotos.PhotographTargets | fusion_parts_photos.py:124-181 | two photos per target region, in target order; the assertion fails exactly when some target exists and a bad border cell does, and then before any photo |
| PartsPhotos.PhotoPathInjective | fusion_parts_photos.py:162-176 | within one record, a photo's name determines its target and its step count |
| PartsPhotos.PhotoPathsDistinct | fusion_parts_photos.py:161-176 | the names of a record's photos are pairwise distinct |
| PartsPhotos.ProcessRecords | fusion_parts_photos.py:91-181 | the records are processed in order: every record before the stopping point ends normally, and all records are processed exactly when the outcome is normal. The record it stops at either has an empty map, reported as such, or fails the assertion at target 1, reported with the first bad border cell. There is one output per record reached, the failing one included, holding its map file name and its dump. A record that ends normally has two photos per target region, and the failing one has none |
| PartsPhotos.ProcessRecord | fusion_parts_photos.py:91-181 | one record of the list: its output holds the map file name, the dump, and the photos, two per target region when it ends normally and none otherwise. The outcome tells an empty map from a failed assertion at target 1, naming the first bad border cell |
| PartsPhotos.ProcessFusionRecord | fusion_parts_photos.py:91-181 | one record. The map file is named with birth number `n + pop_size` and the dump is the transposed map. An empty map is an error, raised before any photo. The assertion fails exactly when there is a target region and a bad border cell, at target 1 with no photos. Otherwise there are `2p` distinctly named photos of the `p` colourings |

## Left out

- The calls into `model_functions` are parameters, because that module is
  not part of this model. These are `map_parent_to_child`, `find_types`,
  `fusion_seed_IDs`, `longest_paths`, `region_map`, the three
  `seed_*_stats`, `write_fusion_tables` and `snap_photo`.
  `longest_paths` is also randomised.
- Reading the pickle files and the loops over runs and run folders are not
  modelled: that is file I/O. The tabulation takes one run's roots at a
  time, and `ProcessRecords` the fusion records of one folder.
- Golly's `g.show`, `g.update` and `time.sleep` are not modelled: they are
  host and display calls.
- The photo descriptions passed to `snap_photo` are not modelled, for the
  same reason.
- Writing files is not modelled. The model returns the file names and the
  dumped lines instead.
- The hard-coded directory names are parameters (`dir`, `leaf`).
- `write_fusion_tables` formatting of the tables is not modelled: it is
  I/O in `model_functions`, which this model does not cover.
- fusion_descendants.py and fusion_parents_photos.py are not part of this
  model. They only write reports and photos. The latter's map dump is the
  same as the one modelled here.
- IEEE rounding of the average and fraction tables is not modelled:
  they are computed over `real`.
- A sample size of 0 makes numpy divide 0 by 0, giving NaN cells. The model
  reports the fraction tables as not `defined` instead of producing NaN.
- FusionTables.Tables.Record: numpy's negative-index wrap-around is not
  modelled. Every role count must lie in 0..5 (`Fits`); a count outside
  that range would index from the end or raise IndexError.
- Prolific.TabulateFamily and Singleton.TabulateSingleton take
  `numParts` as a given integer. `np.amax` of an empty region map raises
  ValueError in both scripts; this error path is not modelled.
- Growths are integers in the model. A fractional growth added into the
  integer sum table would be truncated on assignment; this is not modelled.
- Prolific.TabulateFamily: by the time of the `[-1]` IndexError, the
  script has already incremented `sample_size`. The model reports
  `NoDescendantRows` and leaves the tables and the sample size unchanged.
  Either way the run ends without tables being written.
- PartsPhotos.ProcessRecords: a failed assertion or an empty map ends the
  whole script. The model reports the outcome and stops the loop over the
  current folder's records; the loop over folders is not modelled.
- PartsPhotos.ProcessRecords: turning a quadruple into a `FusionRecord`
  takes the cells of `s4`, its birth number `n`, and `region_map(s4)`,
  which is computed in `model_functions`, a module this model does not
  cover. The model takes the records as given rather than from
  `Quadruples`.
- PartsPhotos.PhotographTargets: a photo holds the contents of the colouring
  it shows, as a value, rather than the pattern object handed to
  `snap_photo`.
- PartsPhotos.Recolour: on an assertion failure, the partly recoloured
  copy is not described, because the script stops there.
- The order of the average and fraction loops differs from the source. The
  source fills the three role tables in one shared row/column loop; the
  model fills each table in its own loop. Each cell gets the same value
  either way.
