# ARC-style stimulus generators, session builders and log cleaner in Dafny

This project models the deterministic core of a repository that generates ARC-style grid
puzzles and runs a same/different rule experiment on them. The model has three parts.

- **Building experiment sessions.**
  - `build_session` collects the generated stimuli into a two-level pool: family, then
    sub-rule, then stimuli.
  - It builds blocks of four phases: phase_start, inference, phase_start and application.
  - Sampling is without replacement inside a block. Each decision trial is labelled
    `same` or `different` against a rule context that the phase carries along.
  - The family-block loop skips a failed block. The mix-block loop stops at the first
    failed block.
  - `build_manifest` groups stimuli by family and gives each family with enough items one
    block of examples and trials.
- **The grid and the deterministic grid rules.**
  - The `Grid` class, with its fills, rotation and mirrors.
  - `apply_gravity` and `generate_dots_gravity`.
  - The five expansion generators.
  - The inversion, odd-colour and cross/plus recolourings.
  - The majority and minority counting rules.
- **The row-level helpers of the log cleaner.**
  - The block type a task id names.
  - The two anonymous participant numberings.
  - The column reordering and the real-trial filter.

Randomness is an input. `Oracle.Source` is a pair of infinite outcome streams, and a cursor
is threaded through every call. `random() < p` reads a boolean. `choice` reads an index
reduced modulo the number of options. `shuffle` is a selection shuffle, and
`Oracle.ShuffleReachesAll` proves that every permutation is reachable. Every property is stated and proved for all streams. The grid
generators take their draws as parameters: counts, centres, positions, colour indices,
shapes and skipped directions.

A failed draw raises in Python. Here it is an `Err` value, which still reports how far the
stream has advanced. `Sampling.Error` keeps `ValueError` (not enough stimuli, no candidate)
apart from `KeyError` (missing dictionary key), because only the first is caught by the
block loops. Python dictionaries keep insertion order, and that order decides which
candidate an index selects, so the pools and `by_family` are ordered association lists
with unique keys.

The grid generators call `fill_cell(x, y)` with `x` ranging over columns but used as the
row. The model keeps that argument order. Each generator requires what the source needs to
avoid an `IndexError`:
- the `Fits` predicates;
- `x + 1 < rows` for the single-step expansions;
- a square grid for the full-ray expansions.

Files, one module each: `wrappers.dfy`, `seqs.dfy`, `text.dfy`, `oracle.dfy`, `grid.dfy`,
`gravity.dfy`, `expansion.dfy`, `recolor.dfy`, `arithmetic.dfy`, `pools.dfy`,
`sampling.dfy`, `phases.dfy`, `session.dfy`, `manifest.dfy`, `processing.dfy`.

## Model

| member | source | states |
|---|---|---|
| Grids.New | src/grid.py:2-5 | a new grid has `rows` rows of `cols` cells, every cell the default colour |
| Grids.Get | src/grid.py:10-11 | `get(row, col)` reads the cell the two indices address, a negative index counting from the end |
| Grids.GetAfterSet | src/grid.py:7-11 | `get` after `set` reads the new colour at the address just set and the old colour at every address of another cell |
| Grids.Set | src/grid.py:7-15 | after `set`/`fill_cell` the addressed cell (negative indices count from the end) reads back the colour and no other cell changes; the shape is kept |
| Grids.FillRect | src/grid.py:17-27 | exactly the in-bounds cells with `ymin <= r <= ymax` and `xmin <= c <= xmax` (inclusive) take the colour; out-of-range coordinates are passed over and every other cell is unchanged |
| Grids.FillAll | src/grid.py:29-32 | every cell takes the colour and the shape is kept |
| Grids.Copy | src/grid.py:37-40 | the copy equals the original, dimensions included |
| Grids.RotateLeft | src/grid.py:44-51 | the dimensions swap and `old[r][c]` lands at `new[cols-1-c][r]` |
| Grids.MirrorX | src/grid.py:53-59 | the shape is kept and `old[r][c]` lands at `new[rows-1-r][c]` |
| Grids.MirrorY | src/grid.py:61-67 | the shape is kept and `old[r][c]` lands at `new[r][cols-1-c]` |
| Grids.RotateFour | src/grid.py:44-51 | four left rotations give back the original grid |
| Grids.RotateTwice | src/grid.py:44-67 | two left rotations equal `mirror_x` followed by `mirror_y` |
| Grids.MirrorXTwice | src/grid.py:53-59 | `mirror_x` is an involution |
| Grids.MirrorYTwice | src/grid.py:61-67 | `mirror_y` is an involution |
| Grids.MirrorsCommute | src/grid.py:53-67 | the two mirrors commute |
| Grids.Paint | src/grid.py:13-15 | `fill_cell` over a list of cells with one colour colours exactly the listed cells and leaves the others |
| Grids.PaintEach | src/rules/attraction.py:194-195 | `fill_cell` over a list with one colour per cell: a cell listed once has its own colour, an unlisted cell keeps its colour |
| Gravity.ApplyGravity | src/rules/attraction.py:203-214 | the dimensions are kept; in every column the non-black colours are the input column's, in the same order, and nothing but black sits above a black cell |
| Gravity.SettledForm | src/rules/attraction.py:207-212 | a settled column is its colours packed into rows `0..k-1` followed by black, so the two properties above fix every output column |
| Gravity.ColouredPacked | src/rules/attraction.py:207-212 | colours followed by black are settled and keep their colours |
| Gravity.GravityIdempotent | src/rules/attraction.py:207-212 | applying gravity twice equals applying it once |
| Gravity.DotsGravity | src/rules/attraction.py:183-200 | the n distinct sampled cells take their drawn colours, all other input cells are black, `n_objects = n`, and the output is `apply_gravity(input)` |
| Expansion.MarkCentres | src/rules/expansion.py:18-19 | the input grid has `colors[0]` exactly at the centres and black everywhere else |
| Expansion.Stroked | src/rules/expansion.py:21-27 | after colouring the strokes and then refilling the centres, a centre has `colors[0]`, another stroked cell `colors[1]`, and every other cell is black |
| Expansion.Around | src/rules/expansion.py:21-24 | the cells coloured around one centre are exactly the one-step moves along the directions |
| Expansion.Neighbours | src/rules/expansion.py:18-24 | a cell is among the coloured neighbours iff it is one step from some centre along some direction |
| Expansion.NeighboursOnGrid | src/rules/expansion.py:11-24 | single steps from centres with `1 <= x`, `x + 1 < rows` (and the same for `y`) never index outside the grid |
| Expansion.SingleStep | src/rules/expansion.py:18-27 | the shared single-step body: input marks the centres; output has centres `colors[0]`, cells one step from a centre `colors[1]`, the rest black; `n_objects` is the centre count |
| Expansion.StarSingleStep | src/rules/expansion.py:7-35 | the same with the four diagonal directions and `n = min(draw, (cols-2)(rows-2))` |
| Expansion.PlusSingleStep | src/rules/expansion.py:76-103 | the same with the four axis directions |
| Expansion.Ray | src/rules/expansion.py:58-62 | every cell the ray loop visits is on the board |
| Expansion.RayCells | src/rules/expansion.py:56-62 | a ray from an on-board cell holds exactly the on-board cells a whole number of steps away: the loop stops at the first off-board cell and no on-board cell lies beyond it |
| Expansion.RaysFrom | src/rules/expansion.py:56-62 | the rays of one centre hold exactly the on-board cells at `m >= 1` steps along one of its directions |
| Expansion.Rays | src/rules/expansion.py:56-62 | the rays of all centres hold exactly the cells reached from some centre along one of that centre's directions |
| Expansion.RaysOnGrid | src/rules/expansion.py:56-62 | on a square grid no ray cell indexes outside the grid |
| Expansion.AllDirections | src/rules/expansion.py:54-57 | from an interior centre one unit step in any direction stays on the board |
| Expansion.Full | src/rules/expansion.py:42-73 | the shared full-ray body: with no centre, two blank grids (a 2-tuple); otherwise the input marks the centres and the output has centres `colors[0]`, every other ray cell `colors[1]`, the rest black |
| Expansion.StarFull | src/rules/expansion.py:38-73 | the full body with the four diagonals for every centre; a `Pair` exactly when no centre is drawn |
| Expansion.PlusFull | src/rules/expansion.py:106-141 | the full body with the four axis directions for every centre |
| Expansion.Kept | src/rules/expansion.py:162-168 | `dirs.remove(skip_dir)` leaves exactly the three other diagonals |
| Expansion.KeptDirections | src/rules/expansion.py:164-175 | every kept diagonal is a unit step, and one step of it from an interior centre stays on the board |
| Expansion.KeptSteps | src/rules/expansion.py:170-175 | for one centre, every kept diagonal is a unit step that stays on the board |
| Expansion.ThreeDiagonalFull | src/rules/expansion.py:144-186 | the full body with, for the k-th centre, the three diagonals other than `skips[k]` |
| Recolor.TwoColours | src/rules/color.py:17-23 | on a blank grid the first `n` positions take `c1`, the rest `c2`, and every other cell stays black |
| Recolor.Inversion | src/rules/color.py:7-36 | input: the positions in `all_positions[:n1]` (Python slice semantics, so a negative `n1` counts from the end) `color1`, the rest `color2`; output: the colours exchanged; other cells black; `n_objects = n1 + n2`; the two colours differ when `colors` are distinct |
| Recolor.InversionSwaps | src/rules/color.py:20-28 | cell by cell the output is the input with `color1` and `color2` exchanged and black kept |
| Recolor.SwappedColours | src/rules/color.py:20-28 | painting the two parts with exchanged colours exchanges the colours cell by cell |
| Recolor.OddColour | src/rules/color.py:39-70 | at least two positions; input: the odd position in `odd_color`, the others in the majority colour; output: all positions `odd_color`; other cells black |
| Recolor.OddInput | src/rules/color.py:55-58 | every position has the majority colour except the chosen one, which has the odd colour |
| Recolor.OddOneOut | src/rules/color.py:52-58 | exactly one input cell has the odd colour: the chosen position |
| Recolor.OddCell | src/rules/color.py:55-58 | in the odd-colour input a cell has the odd colour iff it is the chosen position |
| Recolor.OffsetsShape | src/rules/color.py:74-77 | each stamp shape has five distinct cells within its 3 by 3 square; cross and plus share only the centre |
| Recolor.StampAt | src/rules/color.py:95 | a stamp's cells are its top-left corner plus each offset of its shape |
| Recolor.StampInBounds | src/rules/color.py:87-95 | a stamp at a candidate corner (`< rows-2`, `< cols-2`) lies inside the grid |
| Recolor.Consider | src/rules/color.py:94-99 | one candidate: its stamp is appended exactly when it clashes with no placed stamp; used cells stay the union of the placed stamps, which stay disjoint and inside the grid |
| Recolor.PlaceOne | src/rules/color.py:96-99 | appending a non-clashing in-grid stamp keeps `used` equal to the covered cells and the stamps disjoint |
| Recolor.PlaceStamps | src/rules/color.py:93-101 | placed stamps are disjoint, inside the grid, at most `k` of them, each one offered by a candidate; with fewer than `k` placed, every candidate was placed or clashed; and they are exactly `Greedy`'s: candidates in turn, each placed unless it clashes, stopping at `k` |
| Recolor.GreedyTakesFirst | src/rules/color.py:93-101 | when a stamp is wanted the first candidate's stamp is always placed first, whatever the later candidates offer |
| Recolor.GreedyExtends | src/rules/color.py:93-101 | the greedy loop only appends to the stamps already placed |
| Recolor.CrossPlus | src/rules/color.py:80-114 | the placed stamps are disjoint, inside the grid, each offered by a candidate, at most `k` of them, and with fewer than `k` every candidate was placed or clashed; they are exactly the greedy loop's stamps (`Greedy`); input: covered cells `colors[0]`; output: cross cells `colors[1]`, plus cells `colors[2]`; the rest black; `n_objects = len(placed)` |
| Recolor.StampsOut | src/rules/color.py:103-106 | with disjoint stamps, cross cells take the cross colour, plus cells the plus colour, the rest black |
| Arithmetic.RandBetween | src/util.py:6-7 | a value in `[a, b]` when `a < b`, otherwise `a` |
| Arithmetic.Counts | src/rules/arithmetic.py:10-11 | `n1 >= lo`; when `n1 > 1`, `lo-1 <= n2 <= n1-1`; otherwise `n2 = 1`; with `lo >= 2`, `1 <= n2 < n1` |
| Arithmetic.Recolour | src/rules/arithmetic.py:15-25 | input: the positions in `all_positions[:n1]` `c1` (Python's slice end, negative `n1` counting from the end), the rest `c2`; output: every position `target`; other cells black |
| Arithmetic.Majority | src/rules/arithmetic.py:6-33 | for any `block_num`, negative bounds included: input has position `k` in `color1` iff `k < n1`, else `color2`; output: every position `color1`; other cells black; `n_objects = n1 + n2` |
| Arithmetic.Minority | src/rules/arithmetic.py:36-63 | the same with every output position `color2` |
| Arithmetic.MajorityWins | src/rules/arithmetic.py:10-25 | the `color1` group is strictly larger than the nonempty `color2` group, and the output recolours every block of the input to `color1` |
| Arithmetic.MinorityWins | src/rules/arithmetic.py:40-55 | the output recolours every block of the input to `color2` |
| Arithmetic.RecolourAll | src/rules/arithmetic.py:19-25 | with non-black input colours, every non-black input cell becomes `target` and black stays black |
| Text.PrefixBeforeDot | experiment/fMRI/build_session.py:146 | `split(".", 1)[0]` is a dot-free prefix, ending where the first dot is |
| Text.Sort | experiment/fMRI/build_session.py:347 | `sorted` yields a sorted permutation of its input |
| Text.Lower | experiment/data/analysis/processing.py:63 | lower-casing maps each ASCII capital to its small letter and keeps every other character |
| Oracle.Coin | experiment/fMRI/build_session.py:290 | one comparison outcome from the stream, advancing it by one |
| Oracle.Choice | experiment/fMRI/build_session.py:187 | the index `rng.choice` picks is below the number of options |
| Oracle.Shuffle | experiment/fMRI/build_session.py:348 | `rng.shuffle` yields a permutation of the list |
| Oracle.ShuffleFollows | experiment/fMRI/build_session.py:348 | a stream that supplies the index draws computed for a permutation `p` makes the shuffle yield exactly `p` |
| Oracle.ShuffleReachesAll | experiment/fMRI/build_session.py:348 | every permutation of the list is the shuffle's result on some stream, so the model excludes no order |
| Pools.FindFamily | experiment/fMRI/build_session.py:198 | `pools[family]`: the family's entry, or none exactly when no key matches |
| Pools.FindSubRule | experiment/fMRI/build_session.py:244 | `family_pool[sub_rule]`: the sub-rule's stimuli, or none exactly when no key matches |
| Pools.EntriesMembership | experiment/fMRI/build_session.py:200-201 | the two nested `.items()` loops visit exactly the sub-rule pools of all families |
| Pools.EntryLookup | experiment/fMRI/build_session.py:200-205 | in a pool with unique keys every visited entry is what `pools[family][sub_rule]` returns |
| Pools.FamilyEntries | experiment/fMRI/build_session.py:198 | restricting to one family visits exactly the entries of that family |
| Pools.FamilyOf | experiment/fMRI/build_session.py:146 | case by case: the record's non-empty `family`; otherwise, when `rule` does not start with a dot, the part of `rule` before its first dot; otherwise "unknown"; never empty |
| Pools.FamilyRuleDetermines | experiment/fMRI/build_session.py:146 | those three cases leave exactly one family for each record |
| Pools.AddToFamily | experiment/fMRI/build_session.py:147-149 | `setdefault(sub_rule, []).append(s)` appends `s` to that sub-rule's list only and keeps keys unique |
| Pools.Add | experiment/fMRI/build_session.py:147-149 | the two-level `setdefault(...).append` keeps keys unique and adds exactly the new family key |
| Pools.AddContents | experiment/fMRI/build_session.py:147-149 | appending to one pool leaves every other pool as it was |
| Pools.Accepted | experiment/fMRI/build_session.py:137-144 | a record enters a pool iff its `rule` and `id` are non-empty and its combined image exists |
| Pools.CollectPools | experiment/fMRI/build_session.py:129-151 | `collect_pools` over the rule directories: every pool holds exactly the accepted records of its context, in directory and file order; a family key and a (family, sub-rule) key exist exactly for the families and contexts of accepted records; keys unique, families non-empty |
| Pools.Collect | experiment/fMRI/build_session.py:129-151 | every pool holds exactly the accepted records of its context (non-empty `rule` and `id`, image present), in encounter order; the keys at both levels are exactly the families and contexts of accepted records, so no empty family appears; keys unique, families non-empty |
| Pools.ContextsSelected | experiment/fMRI/build_session.py:137-149 | a context has a key exactly when its reference contents are non-empty |
| Pools.AddKeys | experiment/fMRI/build_session.py:147-149 | the two-level `setdefault(...).append` creates the key of its own context and no other |
| Sampling.Uid | experiment/fMRI/build_session.py:155-156 | a stimulus's uid is its non-empty `id`, else its `combined_path` |
| Sampling.SelectedUids | experiment/fMRI/build_session.py:137-156 | every collected stimulus has a non-empty `id`, so its uid is that `id` |
| Sampling.UnusedCounts | experiment/fMRI/build_session.py:164 | the unused list holds each pool stimulus whose uid is not used, as often as in the pool, and no other |
| Sampling.AvailablePairs | experiment/fMRI/build_session.py:159-160 | the count is half the unused stimuli, rounded down; at least one iff two are unused |
| Sampling.PickPair | experiment/fMRI/build_session.py:163-171 | fails (ValueError) iff no pair is available, drawing nothing; otherwise two unused stimuli of the pool, and exactly their uids are added to the used set |
| Sampling.PickPairDistinct | experiment/fMRI/build_session.py:167-170 | with distinct uids in the pool the two stimuli of a pair have different uids |
| Sampling.SubRuleCandidates | experiment/fMRI/build_session.py:180-184 | the candidates are exactly the sub-rules other than `avoid` with at least one pair left |
| Sampling.PickSubRule | experiment/fMRI/build_session.py:174-187 | fails (ValueError) iff no sub-rule qualifies; otherwise a qualifying sub-rule, the used set unchanged |
| Sampling.ContextCandidates | experiment/fMRI/build_session.py:200-205 | the candidates are exactly the scanned contexts other than `avoid` with at least one pair left |
| Sampling.ScopeCandidates | experiment/fMRI/build_session.py:197-205 | a context is a candidate iff it has a pair left, is not `avoid` and lies in the truthy restricting family |
| Sampling.PickAny | experiment/fMRI/build_session.py:190-209 | KeyError iff the restricting family is missing; ValueError iff nothing qualifies; otherwise a context with a pair left, not `avoid`, inside the restriction, looked up successfully |
| Phases.TrialEntry | experiment/fMRI/build_session.py:212-229 | the trial records its context, its pair and its label (absent on a phase_start trial) |
| Phases.DrawTrial | experiment/fMRI/build_session.py:312 | `pick_pair(pools[family][sub_rule])` fails iff the key is missing (KeyError) or no pair is left; otherwise fresh uids recorded in the used set |
| Phases.DrawTrialDistinct | experiment/fMRI/build_session.py:312 | with distinct pool uids a drawn trial shows two different uids |
| Phases.MakePhaseStart | experiment/fMRI/build_session.py:233-251 | one unlabelled trial of the given context under `trial`, its uids fresh and added to the used set |
| Phases.ResolveContext | experiment/fMRI/build_session.py:290-310 | labelled `same` iff the resolved context is the current one; it always has a pair left and lies in the restricted family; only `pick_any` can fail |
| Phases.DecisionTrial | experiment/fMRI/build_session.py:289-313 | a trial labelled `same` iff it stays in the current context, inside the restriction, with fresh uids; its `pick_pair` never fails |
| Phases.DecisionTrials | experiment/fMRI/build_session.py:289-317 | exactly `n` trials, each judged against the context carried to it, inside the restriction, with pairwise disjoint fresh uids |
| Phases.ConsRan | experiment/fMRI/build_session.py:289-316 | a judged first trial followed by a run from the context it hands on is a run |
| Phases.MakeDecisionPhase | experiment/fMRI/build_session.py:254-319 | `n` labelled trials following the context; the returned context is the input when not swapping or `n = 0`, else the last trial's |
| Session.Count | experiment/fMRI/build_session.py:408 | `range(n)` runs `n` times, or not at all for negative `n` |
| Session.Take | experiment/fMRI/build_session.py:400 | `families[:n]` with Python's meaning for negative and too large `n` |
| Session.KeyLabel | experiment/fMRI/build_session.py:94-102 | arrows for the arrow keys, "Esc" for ESCAPE, and the name itself exactly for every other key |
| Session.TipPair | experiment/fMRI/build_session.py:105-109 | the tip starts with the left label and text, ends with the right text and label, has only spaces between them, and has the summed length plus 6 plus `gap` (no spaces for a negative `gap`) |
| Session.TipReady | experiment/fMRI/build_session.py:349 | `TIP_READY` starts with the same-key label and "Ready", ends with "Ready" and the other key's label, and is 26 characters longer than the two labels |
| Session.TipMemo | experiment/fMRI/build_session.py:350 | `TIP_MEMO`, the same with "Memorized" on both sides, 34 characters longer than the labels |
| Session.TipDecide | experiment/fMRI/build_session.py:351 | `TIP_DECIDE` starts with the same-key label and "Same", ends with "Different" and the other key's label, 29 characters longer than the labels |
| Session.HalfBlock | experiment/fMRI/build_session.py:357-387 | a phase_start with one unlabelled trial inside the restriction, then `n` decision trials judged against its context, all uids fresh |
| Session.BuildBlock | experiment/fMRI/build_session.py:354-394 | four phases in order, both phase_starts with one unlabelled trial, labels following the contexts, no uid drawn twice, all trials in the restricting family, labelled with that family or "mix" |
| Session.HalvesMakeBlock | experiment/fMRI/build_session.py:354-394 | two halves, the second drawn after the first from one used set, make a good block |
| Session.BlockFacts | experiment/fMRI/build_session.py:389-394 | the four phases' facts give the block's shape, freshness and family |
| Session.FreshBlock | experiment/fMRI/build_session.py:355-387 | four trial lists, each drawn after the ones before from one fresh used set, share no uid |
| Session.BuilderFacts | experiment/fMRI/build_session.py:354-394 | `build_block` returns good blocks, and its only error not caught by `except ValueError` is a restriction to a family the pool lacks |
| Session.FamilyLoop | experiment/fMRI/build_session.py:399-405 | at most one block per family, numbered consecutively from `nextId` |
| Session.FamilyErrorsCaught | experiment/fMRI/build_session.py:400-405 | every error of a block restricted to a chosen family is a ValueError, so the loop catches it |
| Session.FamilyLoopBlocks | experiment/fMRI/build_session.py:399-405 | each block is a good block of one of the families, and distinct families give blocks of distinct families |
| Session.FamilyLoopAppend | experiment/fMRI/build_session.py:400-405 | a failed family block is skipped and the loop goes on: running over `fs + gs` is running over `fs` and then over `gs`, continuing ids and stream |
| Session.MixLoop | experiment/fMRI/build_session.py:407-413 | at most `n_mix_blocks` blocks, numbered consecutively from `nextId` |
| Session.MixLoopBlocks | experiment/fMRI/build_session.py:407-413 | every mix block is a good unrestricted block labelled "mix" |
| Session.MixLoopStops | experiment/fMRI/build_session.py:408-413 | after a failed mix block, allowing more iterations changes nothing: the loop has stopped |
| Session.MixLoopAppend | experiment/fMRI/build_session.py:408-413 | without a failure, `count + more` iterations are `count` iterations followed by `more` |
| Session.ChosenOrder | experiment/fMRI/build_session.py:347-348 | the shuffled sorted family names are a permutation of the keys; the chosen prefix has distinct non-empty keys of the pool |
| Session.ChosenFamilies | experiment/fMRI/build_session.py:347-400 | a prefix of a permutation of the family names holds distinct truthy keys |
| Session.RunLoops | experiment/fMRI/build_session.py:396-413 | the family blocks come first, then the mix blocks; at most `len(chosen) + n_mix_blocks` blocks |
| Session.LoopIds | experiment/fMRI/build_session.py:396-413 | block ids run 1, 2, ... across both loops |
| Session.LoopSplit | experiment/fMRI/build_session.py:396-413 | the first `k` blocks are good family blocks of distinct pool families; the rest are good "mix" blocks |
| Session.SessionFrom | experiment/fMRI/build_session.py:346-419 | participant and keys as given; ids 1..k; at most `n_family_blocks + n_mix_blocks` blocks; family blocks then mix blocks, all good |
| Session.BuildSession | experiment/fMRI/build_session.py:323-419 | the same for the pool collected from the rule directories |
| Manifest.RecordItem | experiment/fMRI/build_manifest.py:77-90 | an item's family follows the same three cases as the session builder's (the record's non-empty `family`, else the `rule` part before its first dot, else "unknown", with a missing `rule` as ""); its path is `<dir>/<id>.combined.png`, where a `null` id reads "None" and gives the item no id |
| Manifest.RecordItems | experiment/fMRI/build_manifest.py:77-90 | KeyError iff some record has no `id` key (a `null` id does not raise); otherwise exactly the items of the records whose image exists |
| Manifest.RecordItemsAppend | experiment/fMRI/build_manifest.py:77-90 | file order, duplicates kept: the items of a run of records are those of its first part followed by those of the rest |
| Manifest.RecordItemsSingle | experiment/fMRI/build_manifest.py:77-90 | one record gives its item when its image exists, none when it does not, and a KeyError without an `id` key |
| Manifest.PngItems | experiment/fMRI/build_manifest.py:66-75 | one item per combined image, family from the directory name before its first dot |
| Manifest.DirItems | experiment/fMRI/build_manifest.py:62-90 | a directory with records yields its records' items; one without yields one item per combined image, in the sorted order of the image names (a sorted permutation), with the directory-name family and the path `<dir>/<png>` |
| Manifest.AllItems | experiment/fMRI/build_manifest.py:58-90 | KeyError iff some directory's records lack an `id` key; otherwise an item occurs iff it is an item of some directory |
| Manifest.AllItemsAppend | experiment/fMRI/build_manifest.py:58-90 | directory order: the items of a run of directories are those of its first part followed by those of the rest |
| Manifest.AllItemsSingle | experiment/fMRI/build_manifest.py:58-90 | one directory gives exactly its own items |
| Manifest.OfFamily | experiment/fMRI/build_manifest.py:84 | the items of one family, in order, and no other |
| Manifest.Append | experiment/fMRI/build_manifest.py:84 | `setdefault(family, []).append(item)` appends to that family only and adds at most its key |
| Manifest.Group | experiment/fMRI/build_manifest.py:56-90 | the keys are exactly the families that occur, and each family's list is its items in order |
| Manifest.PickExamplesAndTrials | experiment/fMRI/build_manifest.py:23-28 | `n_examples` examples (or all) and up to `n_trials` trials, disjoint slices of one permutation of the items |
| Manifest.Qualifying | experiment/fMRI/build_manifest.py:95-99 | the families kept are exactly those with at least `n_examples + 1` items, in the given order |
| Manifest.QualifyingSorted | experiment/fMRI/build_manifest.py:95-99 | skipping families keeps the sorted order |
| Manifest.MakeBlock | experiment/fMRI/build_manifest.py:101-115 | a block of the family with one phase of `n_examples` examples and 1..`n_trials` trials, all drawn from the family's items |
| Manifest.Blocks | experiment/fMRI/build_manifest.py:93-116 | one block per qualifying family, in order, with consecutive ids, each a good block |
| Manifest.BuildManifest | experiment/fMRI/build_manifest.py:32-123 | KeyError iff some record has no `id` key; otherwise participant, keys and the fMRI fields as given, and blocks for the qualifying families in sorted order, ids 1..k, each with one full phase |
| Processing.StripStart | experiment/data/analysis/processing.py:66 | the ASCII white space `int()` skips at the front (tab, line feed, vertical tab, form feed, carriage return, space, but not the separators 0x1C to 0x1F) is removed, and only that |
| Processing.StripEnd | experiment/data/analysis/processing.py:66 | the same ASCII white space is removed at the end, and only that |
| Processing.ParseInt | experiment/data/analysis/processing.py:66 | `int(s)` succeeds iff what is left after the white space and the sign are digits with single underscores between them; a negative value needs a leading minus |
| Processing.IntRoundTrip | experiment/data/analysis/processing.py:66 | `int(str(n)) == n` for every integer |
| Processing.ParseIntRejectsStray | experiment/data/analysis/processing.py:65-68 | `int()` rejects a string holding a character that is no white space, digit, sign, underscore or point (a letter, a separator 0x1C to 0x1F) |
| Processing.BlockType | experiment/data/analysis/processing.py:61-71 | "practice" iff the lower-cased id starts with "p" |
| Processing.BlockTypeOfNumber | experiment/data/analysis/processing.py:65-66 | an integer id is "inference" iff its value mod 10 is at most 4, else "application" |
| Processing.BlockTypeUnparsable | experiment/data/analysis/processing.py:65-68 | an id holding such a stray character that does not start with "p" gets "" |
| Processing.LabelInjective | experiment/data/analysis/processing.py:79 | `f"t{n}"` labels differ exactly when the numbers differ |
| Processing.AnonymousIds | experiment/data/analysis/processing.py:74-83 | one id per row, the first "t1", the number being 1 plus the handovers so far; consecutive ids differ iff "4_0_0" directly follows "6_3_4" |
| Processing.AnonIdRaw | experiment/data/analysis/processing.py:114-124 | one id per row counting the "0" sender ids up to it; "t0" before the first "0"; consecutive ids differ iff the row's sender id is "0" |
| Processing.DesiredOrderDistinct | experiment/data/analysis/processing.py:19-24 | the desired column order names each column once |
| Processing.Present | experiment/data/analysis/processing.py:109 | the desired columns that are present, in the desired order |
| Processing.Others | experiment/data/analysis/processing.py:110 | the other columns, in the order they had |
| Processing.Arranged | experiment/data/analysis/processing.py:108-111 | the two parts together form a permutation with the desired columns first |
| Processing.ReorderColumns | experiment/data/analysis/processing.py:108-111 | a permutation of the columns: present desired columns first in desired order, the rest after them in their original order |
| Processing.ParseNumber | experiment/data/analysis/processing.py:163 | `to_numeric` gives a number iff what is left after the white space and the sign is digits with at most one decimal point; a negative value needs a leading minus |
| Processing.RealTrial | experiment/data/analysis/processing.py:163-164 | a row is a real trial iff its task id reads as a number between 0 and 39, both included |
| Processing.KeepRealTrials | experiment/data/analysis/processing.py:162-165 | keeps exactly the rows whose numeric task id lies in 0..39, each as often as before |
| Processing.KeepRealTrialsConcat | experiment/data/analysis/processing.py:162-165 | the filter keeps the row order: filtering a concatenation is concatenating the filtered parts |
| Processing.RealTrialOfNumber | experiment/data/analysis/processing.py:163-164 | a row with an integer task id is kept iff the id is between 0 and 39 |
| Processing.StrayIdNotReal | experiment/data/analysis/processing.py:163-164 | a task id holding a stray character (a letter of a practice id, a separator) makes the row no real trial |
| Processing.SeparatorNotSpace | experiment/data/analysis/processing.py:61-68 | the id "\x1c5" is no integer, gets block type "" and makes no real trial: 0x1C is not white space to `int()` or to pandas |

## Left out

- File and JSON I/O is not modelled: `load_jsonl`, directory iteration, the `exists` checks, `json.dump`/`write_text` and the summary prints. A rule directory arrives as its name, its parsed records and its image names. Each record carries whether its combined image exists.
- `relpath` is not modelled. Image paths are kept as given rather than made relative to the output directory.
- Python's Mersenne Twister and the exact number of draws each call takes are not modelled. The properties hold for every outcome stream, so they hold for the real generator's outcomes too.
- The float comparison `rng.random() < p_same` is a boolean from the stream. The probabilities themselves are not modelled.
- Oracle.Shuffle: a selection shuffle rather than Python's Fisher-Yates. It reaches every permutation (`Oracle.ShuffleReachesAll`), but it does not match a given seed's order.
- Phases.MakePhaseStart, Phases.DecisionTrials: the two uids of a pair are proved different only under `DistinctPools`, that is, when no pool repeats a uid. A corpus with a repeated id can show one uid twice in a pair.
- Manifest.Config: `n_examples_per_block` and `n_trials_per_block` are natural numbers; negative slice bounds are not modelled.
- Manifest.RecordItem: a record with `"rule": null` is treated like a missing rule. In Python, `None.split` would raise there.
- Expansion.StarFull, Expansion.PlusFull, Expansion.ThreeDiagonalFull: these require a square grid. The rays use `x < cols` as a row index, so on a non-square grid the source raises `IndexError` or paints a different cell.
- Expansion.StarSingleStep, Expansion.PlusSingleStep: these require `x + 1 < rows` and `y + 1 < cols`. Without that, `fill_cell(x + 1, ...)` raises `IndexError`. A square grid guarantees it.
- Recolor.Inversion, Recolor.OddColour, Arithmetic.Majority, Arithmetic.Minority: these require the `Fits` bound. Without it, `fill_cell(x, y)` with `x < cols` used as the row raises `IndexError` on a grid with fewer rows than columns.
- Negative or out-of-range counts passed to `random.sample` are not modelled. They raise `ValueError` in Python. The sampled positions and centres are inputs that already satisfy the sampling.
- Processing.BlockType, Processing.ParseInt: only ASCII letters are lower-cased, and only ASCII white space and digits are recognised. Python's `str.lower` and `int` also handle other Unicode letters, digits and spaces (0x85, 0xA0, 0x2000 to 0x200A and others), which the model rejects.
- Processing.ParseNumber: exponents, `inf`, `nan`, and the numeric dtypes a data frame may already hold are not modelled. A cell arrives as its string form.
- The pandas-only steps of the cleaner are not modelled: `clean_columns`, `remove_empty_rows`, the response and difficulty fixes, the demographics extraction and all statistics. They are data-frame plumbing or floating-point aggregation. Duplicate column names are excluded by `ReorderColumns`'s requirement.
- The remaining rectangle generators of `src/rules/attraction.py`, the occlusion and mirror/rotate rules, the older copies under `src/tasks/` and the duplicate cleaners are not modelled. Nor are the plotting code and the entry scripts.
