# tunacell core in Dafny

This project models the core of tunacell, a Python package for analysing
time-lapse microscopy of dividing cells:

- **Observables** (`tuna/base/observable.py`). An `Observable` is a recipe
  for reading one quantity out of each cell. It has:
  - a raw column;
  - optional differentiation and log scale;
  - a local fit over a time window, with a number of join points;
  - a mode (`dynamics`, `birth`, `division`, ...);
  - a timing letter and a reference time.

  Its `label` is a canonical code of the form
  `T<timing><tref>M<mode>J<join>_[dot_][W<window>_][log_]<raw>`, and
  `load_from_string` reads such a code back. A `FunctionalObservable`
  applies a function to observables, so observables form trees.
  `unroll_raw_obs`, `unroll_func_obs` and `set_observable_list` flatten
  those trees into the lists an analysis builds, in dependency order.
- **Cells** (`tuna/base/cell.py`). A `Cell` has:
  - links to its parent and daughters;
  - birth and division times, set from the frames around a division;
  - a cache `_sdata` of computed observables keyed by label.

  `build_timelapse` caches a time series. With local fitting, it also
  writes fitted values back into the parent's cache, where the first
  daughter to write wins. `compute_cyclized` reduces a series to one value
  per cell cycle.
- **Colonies** (`tunacell/base/colony.py`). A colony is the tree of cell
  identifiers. Cells are added from their back-pointers. The tree is then
  decomposed into lineages: either one path per leaf, or independent
  lineages in which every cell appears once. `iter_lineages` picks
  lineages out of a decomposition.
- **Statistics options** (`tuna/stats/utils.py`):
  - `CompuParams`, the options of the stationary statistics, and their
    one- or two-letter code;
  - `Regions`, the named time windows those statistics are computed on.

Each file takes the form of its source:

- **Pure code becomes functions and lemmas:**
  - the label;
  - the derived properties of a functional observable;
  - the decision of where a daughter's fit goes.
- **Stateful code becomes classes or methods with loops:**
  - `Cell` is a class whose setters and builders are methods over its
    fields;
  - `Colony` is a class over a node table;
  - `CompuParams` and `Regions` are classes;
  - `load_from_string`, the unroll functions, `set_observable_list`,
    `decompose`, `iter_lineages` and the naming loop of `Regions.add` are
    methods with `while` loops.

  Each method is proved against a specification function. The properties
  the source promises are then proved about those functions.

Files:

- `wrappers.dfy`: Option and Result.
- `text.dfy`: Python's string and number conversions as the code uses
  them, namely `'{}'.format(n)`, `str.split`, `'{:.2f}'` and `float()` on
  decimal strings.
- `observable.dfy`, `functional.dfy`, `cell.dfy`, `colony.dfy`,
  `stats_utils.dfy`: one per concern above.
- `forest.dfy`: the shape invariant of a colony's node table (child
  lists, back-pointers and depths that agree), used by `colony.dfy`.

Two behaviours of the code shape the cell model:

- `set_division_event` (`tuna/base/cell.py:146-155`) indexes the last
  parent time and the first own time, so it raises IndexError when a frame
  array that is present is empty.
- `build_timelapse` (`tuna/base/cell.py:243-245`) returns before touching
  either cache when the cell has no frames.

## Model

| member | source | states |
|---|---|---|
| Text.NatToString | tuna/base/observable.py:170 | `'{}'.format(n)` is a non-empty string of digits that `int()` reads back as `n` |
| Text.NatToStringInjective | tuna/base/observable.py:170 | different join-point counts are written differently |
| Text.Split | tuna/base/observable.py:202 | `str.split` always yields at least one piece |
| Text.SplitCons | tuna/base/observable.py:202 | splitting a separator-free prefix, the separator and a rest yields the prefix, then the pieces of the rest |
| Text.RoundHalfEven | tuna/base/observable.py:175 | the rounded integer is nearest to the exact value, and even on a tie |
| Text.NearestEvenUnique | tuna/base/observable.py:175 | the nearest-or-even integer is unique, so it is the rounding |
| Text.ParseFixed2 | tuna/base/observable.py:237 | `float('{:.2f}'.format(v))` gives back `v` for every non-negative value with at most two decimals |
| Text.Fixed2Parts | tuna/base/observable.py:175 | `'{:.2f}'` of such a value is digits, '.', then exactly two digits |
| Text.ParseDecimalCommaDot | tuna/base/observable.py:237 | replacing ',' by '.' before `float()` makes a comma read as a decimal point |
| Text.ParseOneSeparator | tuna/base/observable.py:219 | the value of `digits sep digits`, and the ValueError when both digit runs are empty |
| Observables.MatchCode | tuna/base/observable.py:22-31 | the pattern matches only with a lower-case timing letter and a non-empty run of digits for the join points |
| Observables.ParseTref | tuna/base/observable.py:215-221 | the only error reading the reference time is the ValueError of `float()` |
| Observables.ApplyItem | tuna/base/observable.py:230-243 | a flag item fails only through `float()` on the time window |
| Observables.Decode | tuna/base/observable.py:186-225 | ObservableStringError exactly when the pattern does not match the code; on success the name is kept and `raw` is the last '_' piece |
| Observables.LoadFromString | tuna/base/observable.py:186-244 | the loop over the flag items computes exactly `Decode` |
| Observables.AsTimelapse | tuna/base/observable.py:127-140 | dynamics mode at timing 't', every other recipe field kept; the same observable when already dynamic at 't', else named `_timelapsed_<name>` |
| Observables.TrefRoundTrip | tuna/base/observable.py:160-167 | a well-formed reference time is written in the shape the pattern accepts and reads back as itself |
| Observables.FlagsRoundTrip | tuna/base/observable.py:171-178 | reading the items before the raw name gives back scale, differentiation, local fit and time window |
| Observables.MatchLabel | tuna/base/observable.py:158-170 | the pattern finds the timing letter, reference time, mode and join points in a label |
| Observables.DecodeLabel | tuna/base/observable.py:143-244 | `load_from_string(label)` restores every attribute of a well-formed observable (a label is a faithful code) |
| Observables.Label | tuna/base/observable.py:158-179 | a label starts with the 'T' of its code and is at least two characters longer than the raw name; SplitLabel gives its '_'-separated pieces (head, flag items, raw name) and DecodeLabel shows that decoding it restores the observable |
| Observables.TrefComma | tuna/base/observable.py:219 | a reference time written with ',' reads as the one written with '.' |
| Observables.TimelapseLabel | tuna/base/observable.py:127-140 | the time-lapse counterpart has the label of the observable moved to dynamics mode at 't', whatever its name |
| Functional.MakeFunctional | tuna/base/observable.py:355-374 | construction succeeds iff there is a name, `f` is callable, the arity matches and every argument is an observable; RecursionError exactly when, with a name and a callable `f`, some argument holds a non-empty string, bare or nested at any depth in lists or other iterables (unrolled before the arity check); TypeError exactly for a non-observable argument once the other checks pass; the arguments are kept in order |
| Functional.NestedTextRecurses | tuna/base/observable.py:437-446 | a non-empty string inside a list argument, `observables=[[s, ...]]`, makes construction raise RecursionError whatever the arity of `f` |
| Functional.NoEmptyHasLeaf | tuna/base/observable.py:426-448 | a tree without an argument-less node has a raw observable |
| Functional.ModeRule | tuna/base/observable.py:396-405 | the mode is 'dynamics' exactly when some raw observable in the tree is dynamic |
| Functional.TimingsOf | tuna/base/observable.py:377-381 | the timings list is one entry per argument, and fails exactly when one argument's timing fails |
| Functional.TimingRule | tuna/base/observable.py:376-385 | the timing is undefined (IndexError) iff some node has no argument; 't' iff some leaf is at 't'; otherwise the first leaf's timing |
| Functional.TrefRule | tuna/base/observable.py:387-394 | at timing 'g' the reference time is the first leaf's, otherwise none |
| Functional.ObsMode | tuna/base/observable.py:396-405 | a functional observable is in 'dynamics' or 'cell-cycle' mode, never another; ModeRule says which |
| Functional.ObsTiming | tuna/base/observable.py:376-385 | a function of no argument has no timing (the IndexError of `timings[0]`); a defined timing is 't' or the first argument's timing; TimingRule gives the full rule |
| Functional.ObsTref | tuna/base/observable.py:387-394 | the reference time is undefined exactly when the timing is; TrefRule gives its value |
| Functional.TimingFirstChild | tuna/base/observable.py:385 | a node dated 'g' takes it from its first argument, which leads its leaves |
| Functional.ObsLabel | tuna/base/observable.py:407-414 | a functional label is the name, '(' ... ')'; a plain label is the Observable label |
| Functional.LeavesOfAllMember | tuna/base/observable.py:446-447 | an observable is a leaf of an argument list iff it is a leaf of one of the arguments |
| Functional.UnrollRawNode | tuna/base/observable.py:440-447 | unrolling one observable appends its raw leaves, left to right |
| Functional.UnrollRawObs | tuna/base/observable.py:426-448 | `unroll_raw_obs(item, flatten)` appends the raw observables of a (nested) list to `flatten` |
| Functional.UnrollFuncNode | tuna/base/observable.py:450-471 | unrolling one functional observable appends its nested functional nodes, each before the node using it |
| Functional.UnrollFuncObs | tuna/base/observable.py:450-471 | the intended `unroll_func_obs(item, flatten)` appends those nodes; a list contributes nothing |
| Functional.UnrollFuncAsWrittenRaises | tuna/base/observable.py:467-468 | as written, iterating over a FunctionalObservable raises, where the intended traversal ends with the node itself |
| Functional.FuncNodesDepsFirst | tuna/base/observable.py:464-465 | the unrolled order is one in which every functional observable comes after the functional observables it is built from |
| Functional.AppendNew | tuna/base/observable.py:491-496 | the `if obs not in lst: lst.append(obs)` loop computes `AddNew` |
| Functional.AddNewFacts | tuna/base/observable.py:491-496 | de-duplicated appending keeps the old list as a prefix, holds no duplicate and holds exactly the old and the new elements |
| Functional.AddNewDepsFirst | tuna/base/observable.py:494-505 | keeping first occurrences preserves the inputs-before-users order |
| Functional.AddItem | tuna/base/observable.py:497-505 | one argument extends both lists by its own unrolled observables |
| Functional.AddItems | tuna/base/observable.py:490-505 | the loops over filters and arguments are `AddNew` over all their unrolled observables |
| Functional.SetObservableList | tuna/base/observable.py:473-506 | the raw and functional lists are the de-duplicated unrolled observables of the filters, then of the arguments |
| Functional.ObservableListFacts | tuna/base/observable.py:473-506 | each observable once, the filters' observables first, exactly the observables found, and every functional observable after its inputs |
| Functional.SharedDefaultLeaks | tuna/base/observable.py:426 | as written, whatever the shared default list already holds reaches the raw list of any call with an argument |
| Functional.UnrollRawSharedLeaks | tuna/base/observable.py:426 | after `x` was unrolled once, `set_observable_list(y)` gives `[x, y]` where `[y]` is intended |
| Cells.Min | tuna/base/cell.py:375 | `np.nanmin` of non-empty times is one of them and below all of them |
| Cells.Max | tuna/base/cell.py:376 | `np.nanmax` of non-empty times is one of them and above all of them |
| Cells.DisjointTimeSetsMeaning | tuna/base/cell.py:372-377 | `_disjoint_time_sets` holds iff one set is empty or every time of one precedes every time of the other; it is symmetric |
| Cells.DisjointTimeSets | tuna/base/cell.py:372-377 | two disjoint time sets share no time; DisjointTimeSetsMeaning gives the ordering reading both ways |
| Cells.DisjointNoCommon | tuna/base/cell.py:372-377 | disjoint time sets share no time |
| Cells.MergeKeepsExisting | tuna/base/cell.py:286-293 | a value already in the parent's cache is never replaced; a merge takes all the offered valid values or none; a missing entry takes the whole series |
| Cells.MergeOverlapUnchanged | tuna/base/cell.py:289-293 | an offered time within the span of the valid times already there leaves the parent's entry unchanged |
| Cells.MergeIntoParent | tuna/base/cell.py:286-293 | the merged series keeps the parent's length, and an entry that changes takes every valid offered value; MergeKeepsExisting and MergeOverlapUnchanged state the rest |
| Cells.Round2 | tuna/base/cell.py:253 | `np.round(v, decimals=2)` is a whole number of hundredths, the nearest one to `v` and the even one on a tie, so within 0.005 of `v` |
| Cells.MinAbsIncrement | tuna/base/cell.py:251-253 | the smallest absolute time increment is one of the increments and bounds them all |
| Cells.SamplingPeriod | tuna/base/cell.py:247-253 | the container's period if known; otherwise, with two frames or more, a whole number of hundredths nearest to the smallest increment (even on a tie), hence within 0.005 of it; otherwise none |
| Cells.TimelapseValues | tuna/base/cell.py:255-284 | something goes to the parent iff the observable uses local fitting; without fit or differentiation the raw column is cached; the parent's share has one value per parent frame |
| Cells.SumBounds | tuna/base/cell.py:359 | the sum of the valid values lies between count times their bounds |
| Cells.NanMeanBounds | tuna/base/cell.py:359 | `np.nanmean` of a series with a valid value lies between the bounds of its valid values |
| Cells.CountPositive | tuna/base/cell.py:359 | a series with a valid value has a positive count |
| Cells.CyclizedModes | tuna/base/cell.py:330-367 | every named cell-cycle mode gives a value: the extrapolated birth or division value, NaN on ExtrapolationError, their difference or ratio, or the NaN-mean |
| Cells.CyclizedValue | tuna/base/cell.py:330-367 | the only failure is the unbound-value error of a mode word no branch names; CyclizedModes gives the value of every named mode |
| Cells.CyclizedBranch | tuna/base/cell.py:330-367 | branching on the mode word fails only with the unbound-value error; BranchNames gives the result of each named branch |
| Cells.NetIncreaseNames | tuna/base/cell.py:343 | `'net-increase' in mode` holds for the two net-increase modes and not for birth or division |
| Cells.Continuous | tuna/base/cell.py:320-323 | the continuous counterpart is in dynamics mode at 't' and has the label of `as_timelapse` |
| Cells.DivisionEventTime | tuna/base/cell.py:146-155 | IndexError iff a present frame array is empty; a time iff both parent frames and own frames exist |
| Cells.DivisionEventMidpoint | tuna/base/cell.py:155 | the division time lies between the parent's last frame and the cell's first |
| Cells.DivisionEventIdempotent | tuna/base/cell.py:144-159 | a second division event changes nothing further |
| Cells.DivisionEventLinks | tuna/base/cell.py:154-157 | when the parent accepts the time, the cell's birth is its parent's division |
| Cells.DivisionEventState | tuna/base/cell.py:144-159 | a missing or empty frame array leaves birth and parent division as they were; the birth moves only when both frame arrays exist; the parent's division either stays or becomes the new birth |
| Cells.ChildListAppends | tuna/base/cell.py:99-103 | assigning a list of cells to `childs` appends them in order, without error |
| Cells.ChildListRaises | tuna/base/cell.py:99-105 | a bad item in the list raises CellChildsError after the cells before it were appended |
| Cells.ChildsAfter | tuna/base/cell.py:95-105 | a value that is neither None, a cell nor a list leaves the children and raises CellChildsError; only such a value, or a list holding one, raises; ChildListAppends and ChildListRaises give the list cases |
| Cells.ChildsAfterExtends | tuna/base/cell.py:95-105 | assigning a value that holds no None, at the top or in a list, only appends to the children, whether or not it raises |
| Cells.ChildListAfterExtends | tuna/base/cell.py:99-101 | assigning the items of a list one by one, none of them None, only appends to the children |
| Cells.Cell.constructor | tuna/base/cell.py:74-87 | no children, no parent, no times, an empty cache |
| Cells.Cell.SetChilds | tuna/base/cell.py:95-105 | the `childs` setter: None clears, a cell appends, a list assigns item by item, anything else raises |
| Cells.Cell.SetParent | tuna/base/cell.py:112-119 | the `parent` setter: None or a cell is stored, anything else raises CellParentError and keeps the parent |
| Cells.Cell.SetBirthTime | tuna/base/cell.py:126-129 | the birth time is stored unchecked |
| Cells.Cell.SetDivisionTime | tuna/base/cell.py:136-142 | a division time before the birth time raises CellDivisionError and changes nothing; otherwise it is stored |
| Cells.Cell.SetDivisionEvent | tuna/base/cell.py:144-159 | birth and parent division become the midpoint as `DivisionEventState` says; the IndexError and the parent's refusal are reported |
| Cells.Cell.BuildTimelapse | tuna/base/cell.py:198-295 | the cell's cache becomes `CacheAfterTimelapse` (unchanged without frames, else the series under the label, every other key kept) and the parent's becomes `ParentCacheAfterTimelapse` (with frames and local fitting, `MergeIntoParent` of the old entry; otherwise unchanged) |
| Cells.Cell.MergeEntry | tuna/base/cell.py:286-293 | the parent's entry under the label becomes `MergeIntoParent` of the old entry; nothing else changes |
| Cells.Cell.ComputeCyclized | tuna/base/cell.py:297-369 | ValueError for a dynamic observable with nothing touched; otherwise, after the continuous build has set both caches: KeyError exactly when that build left no series under the continuous label (only without frames), the cache then as the build left it; else the result is `CyclizedValue` of the cell's times and that series, a value is cached under the label and nothing else changes, and an unbound mode leaves the cache as the build left it |
| Cells.Cell.CacheCyclizedValue | tuna/base/cell.py:324-369 | reading the continuous series back from the cache: KeyError iff no series is cached under the continuous label; otherwise `CyclizedValue` of the cell's times and that series, with a value cached under the label and every other entry kept |
| Cells.Cell.Build | tuna/base/cell.py:191-196 | dynamics mode builds a time-lapse and leaves both caches as `BuildTimelapse` says; any other mode leaves the result and both caches as `ComputeCyclized` says |
| Cells.LabelModeDiffers | tuna/base/cell.py:316-328 | a cell-cycle label differs from its continuous counterpart's, so caching the value keeps the series |
| Colonies.ReorderShaped | tunacell/base/colony.py:85 | reordering children at random keeps a well-shaped tree with the same children |
| Colonies.PreorderLinked | tunacell/base/colony.py:85 | in depth-first order every node that is not a leaf is followed by one of its daughters, and the order ends at a leaf |
| Colonies.PreorderNoDup | tunacell/base/colony.py:85 | depth-first order lists no node twice |
| Colonies.PreorderCovers | tunacell/base/colony.py:85 | depth-first order from the root reaches every node |
| Colonies.Preorder | tunacell/base/colony.py:85 | depth-first order from a node starts at that node; PreorderLinked, PreorderNoDup and PreorderCovers state the rest |
| Colonies.SubtreeIncluded | tunacell/base/colony.py:85 | the subtree of a node reached from `n` lies within the subtree of `n` |
| Colonies.SiblingsDisjoint | tunacell/base/colony.py:85 | the subtrees of two daughters share no node |
| Colonies.Cut | tunacell/base/colony.py:86-92 | every lineage closed by the loop is non-empty |
| Colonies.Prepend | tunacell/base/colony.py:83 | each extended path starts at the given node |
| Colonies.IndependentLineages | tunacell/base/colony.py:84-92 | `decompose(independent=True)` puts every cell in exactly one lineage; each lineage is a line of descent ending at a leaf; there is one lineage per leaf |
| Colonies.CutCovers | tunacell/base/colony.py:84-92 | the lineages concatenate to the depth-first order, which lists every cell once |
| Colonies.CutLines | tunacell/base/colony.py:86-92 | each lineage descends from daughter to daughter and is closed by a leaf, in leaf order |
| Colonies.AllLeavesOnce | tunacell/base/colony.py:90-92 | the lineage ends are every leaf, once each |
| Colonies.PathsToLeaves | tunacell/base/colony.py:82-83 | `decompose(independent=False)` gives one path from the root down to each leaf, each leaf once |
| Colonies.RootPaths | tunacell/base/colony.py:82-83 | every path from a node starts at that node; PathsToLeaves and RootPathsDownward state the rest |
| Colonies.Accepted | tunacell/base/colony.py:127-133 | a lineage is yielded iff it is in the decomposition and the filter accepts it |
| Colonies.AcceptedAppend | tunacell/base/colony.py:127-133 | filtering distributes over concatenation |
| Colonies.SelectionFacts | tunacell/base/colony.py:126-133 | the selection is a prefix of the accepted lineages, exactly `size` long when there are that many, and all of them when `size` allows |
| Colonies.SeedAsFlagRepeatsMother | tunacell/base/colony.py:118 | as written, the default seed selects the non-independent decomposition, in which a mother with two daughters appears in both lineages; the independent one lists her once |
| Colonies.AddNodeError | tunacell/base/colony.py:57 | treelib's `add_node` accepts iff the identifier is new, a root is added only to an empty tree, and a parent is present |
| Colonies.Colony.constructor | tunacell/base/colony.py:44-47 | an empty tree with no decomposition cached |
| Colonies.Colony.AddNode | tunacell/base/colony.py:57 | on success the node becomes the last daughter of its parent, or the root; on error nothing changes; the tree stays well shaped |
| Colonies.Colony.AddCellRecursive | tunacell/base/colony.py:49-64 | when `add_node` rejects the cell, that error is returned and nothing changes; otherwise the cell is added, and the walk fails only with `DuplicatedNodeId`, on a collision: a cell it added claims a daughter, naming it back, that was already in the tree or that it lists twice; over cells none of which but the cell itself is in the tree yet, each listing its daughters once, the walk succeeds. The cell and every daughter whose back-pointer names it are added; the tree only grows and keeps its shape; only nodes in the cell's subtree are added; no node already in the tree gains a daughter except the cell's mother, which gains the cell; the cell's daughters are, in order, its listed daughters whose back-pointer names it (a prefix of them on error); without error every link the cells claim is in the tree |
| Colonies.Colony.AddDaughters | tunacell/base/colony.py:59-64 | the loop over the daughters adds, under the cell and in list order, exactly those whose back-pointer names it (a prefix of them on error); no other node already in the tree gains a daughter; any error is `DuplicatedNodeId` after a collision of the walk |
| Colonies.Colony.AddDaughter | tunacell/base/colony.py:60-64 | one turn of that loop: a daughter whose back-pointer names the cell is added with its subtree and appended to the cell's daughters; a daughter whose back-pointer names another cell is skipped, without error and with the tree unchanged; any error is `DuplicatedNodeId` after a collision of the walk |
| Colonies.Colony.AddLinkedDaughter | tunacell/base/colony.py:61-64 | the turn for a daughter whose back-pointer names the cell: its walk adds it and its subtree and it becomes the cell's last daughter, or the turn fails with `DuplicatedNodeId` after a collision, the cell's daughters staying a prefix of its linked daughters |
| Colonies.DuplicateDaughter | tunacell/base/colony.py:57-64 | a daughter naming the cell that is already in the tree when the loop reaches it was there before the walk or is listed twice by the cell |
| Colonies.CollisionTransfer | tunacell/base/colony.py:60-64 | a collision met by the recursive walk of a daughter is a collision of the walk of the cell |
| Colonies.DaughterCollision | tunacell/base/colony.py:57-64 | whichever way the walk of a daughter fails (the daughter is already in the tree, or a collision deeper down), the walk of the cell has met a collision |
| Colonies.NoCollision | tunacell/base/colony.py:49-64 | a walk over cells not yet in the tree, each listing its daughters once, meets no collision |
| Colonies.LinkedDaughters | tunacell/base/colony.py:60-64 | the listed daughters kept are exactly those present whose back-pointer names the cell |
| Colonies.LinkedPrefix | tunacell/base/colony.py:60-64 | the daughters kept from a prefix of the list are a prefix of those kept from the list |
| Colonies.Colony.Decompose | tunacell/base/colony.py:66-94 | the independent decomposition is the randomised depth-first order cut after each leaf; otherwise the paths to the leaves; the result is kept in `idseqs` |
| Colonies.Colony.IterLineages | tunacell/base/colony.py:96-133 | with a cached decomposition, the cache is left as it is and the selection is taken from it, shuffled first if asked; otherwise a new independent decomposition is cached, shuffled in the cache itself if asked (the list is aliased), a permutation of the depth-first cut; the selection is the accepted lineages up to `size`; an empty tree gives nothing |
| Colonies.CutAtLeaves | tunacell/base/colony.py:86-92 | the loop of `decompose` computes `Cut` |
| Colonies.Select | tunacell/base/colony.py:126-133 | the loop of `iter_lineages` yields the accepted lineages up to `size` |
| Colonies.StopEarly | tunacell/base/colony.py:128-129 | stopping when `count > size - 1` yields exactly the first `size` accepted lineages |
| StatsOptions.Loaded | tuna/stats/utils.py:97-112 | a valid mean adjustment stays valid after loading a code |
| StatsOptions.LoadedAccepts | tuna/stats/utils.py:97-112 | a code is accepted iff it is a string starting with 'g' or 'l' whose second character, if any, is 'd'; it sets the options its letters name; only a bad second character leaves a partial change |
| StatsOptions.CompuParams.constructor | tuna/stats/utils.py:81-88 | the options given are stored |
| StatsOptions.CompuParams.AsStringCode | tuna/stats/utils.py:90-95 | the code is the first letter of the mean adjustment, then 'd' when disjoint |
| StatsOptions.CompuParams.LoadFromStringCode | tuna/stats/utils.py:97-112 | the new options and the error are those of `Loaded`; valid options stay valid |
| StatsOptions.NewCompuParams | tuna/stats/utils.py:81-88 | CompuParamsError for an unknown mean adjustment, then for a non-boolean `disjoint`; otherwise the options given |
| StatsOptions.CodeRoundTrip | tuna/stats/utils.py:90-112 | loading the code of a set of options restores them without error, whatever was loaded before |
| StatsOptions.CandidateInjective | tuna/stats/utils.py:280-283 | the generated names A..Z, A1..Z1, ... are all different |
| StatsOptions.Candidate | tuna/stats/utils.py:280-283 | a generated name starts with a capital letter, and it is a single letter exactly in the first round (num 0); CandidateInjective shows distinct rounds and letters give distinct names |
| StatsOptions.FirstFreeUnique | tuna/stats/utils.py:272-289 | there is exactly one first free generated name |
| StatsOptions.ScannedGrows | tuna/stats/utils.py:276-288 | a round without a free name leaves fewer names in use to scan, so the naming loop ends |
| StatsOptions.FreshName | tuna/stats/utils.py:272-289 | the naming loop returns a name not in use, the first free one in the order A..Z, A1..Z1, ... |
| StatsOptions.ScanRound | tuna/stats/utils.py:277-287 | one round stops at its first free name, or reports that all 26 are in use |
| StatsOptions.FindSameBounds | tuna/stats/utils.py:264-270 | a stored region with the same bounds is found iff there is one |
| StatsOptions.AddKeepsConsistent | tuna/stats/utils.py:295 | storing a region under a new name with new bounds keeps names matching keys and bounds distinct |
| StatsOptions.BoundsCheckRaisesAsWritten | tuna/stats/utils.py:243-266 | as written, once the name check has passed, bounds equal to a stored region's raise AttributeError |
| StatsOptions.BoundsOfAllRaise | tuna/stats/utils.py:243-266 | as written, a region under a free name (or none) with the bounds of 'ALL' makes `add` raise, where the stored region 'ALL' is the one to name |
| StatsOptions.Regions.constructor | tuna/stats/utils.py:166-181 | with no saved regions, the table holds the single region 'ALL' over the experiment's time bounds |
| StatsOptions.Regions.Add | tuna/stats/utils.py:223-298 | the name is reported taken iff it is in use; bounds are reported taken, with the stored region that has them, iff the name is free and such a region exists; otherwise (and only then) the region is stored under its name, or under the first free generated name, and nothing else changes; a refusal leaves the table unchanged |
| StatsOptions.Regions.Delete | tuna/stats/utils.py:300-311 | the named region, if any, is removed and nothing else |
| StatsOptions.Regions.Reset | tuna/stats/utils.py:313-319 | only 'ALL', if present, remains |
| StatsOptions.Regions.Get | tuna/stats/utils.py:321-340 | UndefinedRegion exactly for a name not in use; otherwise the region stored under the name, which carries that name |

## Left out

- The numerical routines of `tuna.datatools`, namely `compute_rates`, `derivative`, `logderivative`, `extrapolate_endpoints` and `np.polyfit`, are parameters of the model (`Cells.Datatools`). Nothing is proved about their numbers, only about how the cell routes them.
- Floating point: times, values, reference times and time windows are exact reals. `'{:.2f}'` and `np.round` round the exact value half to even. NaN is a missing value (`None`).
- Observables.ParseTref: `float()` also accepts 'inf', 'nan' and exponents. The label pattern lets only letters, digits and separators through, and a reference time made of other letters is modelled as the ValueError.
- Observables.Decode: on error, `load_from_string` has already reset some attributes and set `raw` on the object before raising. The model returns the error without that partial state.
- Observables: a name is always a string. The code's default `name=None` is not represented; `as_timelapse` would raise TypeError on it when it builds `'_timelapsed_' + self.name` (tuna/base/observable.py:139).
- Observables.Label: a reference time is the root or a real, written with two decimals. The code also accepts an int reference time and writes it with `'{}'` (tuna/base/observable.py:163-164), so `tref=5` labels as "5", not "5.00"; int reference times are not represented.
- Observables: `as_string_table`, `as_latex_string`, `__str__` and `__repr__` are formatting only and are left out. The warning for a raw name 'none' is left out too.
- Observables are compared by value. Python compares these objects by identity, so `obs not in lst` in `set_observable_list` de-duplicates only the very same object.
- Functional.MakeFunctional: `dill.dumps(f)`, `inspect.getargspec` and the `raw_observables` attribute are left out. The function is modelled by its callability and its arity.
- Observables.MatchCode: digits are ASCII '0'..'9'. Under Python 3, `\d` in the label patterns (tuna/base/observable.py:22 and the window item pattern) and `int()`/`float()` also accept other Unicode decimal digits, such as Arabic-Indic ones; the model rejects a code or a window written with them.
- Functional.UnrollFuncObs models the evident intent (iterate over `obs.observables`). The code as written raises; see Findings.
- Functional.SetObservableList calls each unroll with a fresh list, as intended. The shared default list of the code is modelled separately; see Findings.
- Cells.Cell.SetDivisionTime: Python 2 orders `None` before every number, so a `None` division time after a birth time is refused. Python 3 would raise TypeError instead.
- Cells.Cell.BuildTimelapse requires what the code assumes without checking:
  - data with the raw column;
  - a parent with data;
  - more than one frame to differentiate without a local fit;
  - a parent whenever the local fit writes back.

  Without these the code raises an error or an unbound local, and the model does not reproduce those errors.
- Cells.Cell.Build: `build_timelapse` and `build` return the time-lapse as a `Coordinates` pair, which is empty for a cell without frames (tuna/base/cell.py:244-246). The model's `TimelapseBuilt` result carries no series; the series is read from the cache, which a cell without frames leaves unchanged.
- Cells.Cell.BuildTimelapse: numpy arrays are modelled as values. The parent's cached array is updated in place in the code; the model replaces the entry.
- CyclizedModes: in net-increase-multiplicative mode with a birth value of zero, the code divides by zero. With numpy floats that gives ±inf (or NaN for 0/0); with Python floats it raises ZeroDivisionError. The model has no infinities and gives NaN (`None`), through `Cells.Ratio`.
- Ratio: see CyclizedModes; a zero denominator is modelled as NaN.
- Cells.Cell.ComputeCyclized: the code indexes the cached series with `['time']`. The model reads the cell's own times, which is what that indexing is evidently meant to fetch.
- Cells: `__repr__` and `info` are formatting only. The `container` is reduced to its period.
- Colonies: treelib itself is not part of this model. The tree is a node table mapping identifiers to children and back-pointers, with treelib's `add_node` checks.
- Colonies: `expand_tree` with the `_randomise` key is modelled as depth-first order over some reordering of each node's children. The RNG, `np.random.seed` and `np.random.shuffle` are parameters.
- Colonies: `paths_to_leaves` is modelled in depth-first leaf order. treelib's own order of the paths is not modelled.
- Colonies.IsLeaf answers for identifiers outside the tree too. There `get_node(nid)` would fail, but the decomposition only asks about nodes in the tree.
- Colonies.Colony.IterLineages models the evident intent (`decompose(seed=seed)`, an independent decomposition). The code as written passes the seed as `independent`; see Findings.
- Colonies.Colony.IterLineages collects the lineages instead of yielding them lazily. It yields identifier sequences rather than `Lineage` objects, which are not part of this model. The filter is a predicate parameter.
- StatsOptions.Regions.constructor models only the path where no regions were saved. `load`, `save`, `_path_to_file`, `__repr__` and `_find_time_boundaries` read and write files and are left out; the time bounds are parameters.
- StatsOptions.Regions.Names: `names` returns a list of keys in dict order. The model returns the set of keys. The order in which `add` and `reset` walk the table is a nondeterministic choice.
- StatsOptions.Regions.Add models the evident intent of the equal-bounds branch (report the stored region and change nothing). The code as written raises; see Findings.
- StatsOptions: `Region` evaluates string bounds with `eval`, which is left out; bounds are already numbers. The `verbose` printing and warnings are left out.
- `iter_timeseries_` and `iter_timeseries_2` in `tuna/stats/utils.py` iterate over an experiment, which is not part of this model.

## Findings

| source | as written | input that shows it | evidently intended | confidence | as-written member | corrected member |
|---|---|---|---|---|---|---|
| tuna/base/observable.py:467-468 | `for item in obs:` iterates over the FunctionalObservable itself, which defines no iteration, so TypeError | any FunctionalObservable, e.g. `volume(length, width)` | iterate over `obs.observables`, listing nested functional observables before the node | not executed | Functional.UnrollFuncAsWrittenRaises | Functional.UnrollFuncObs |
| tunacell/base/colony.py:118 | `self.decompose(seed)` passes the seed as `independent` | `iter_lineages()` with the default seed `None` on a mother with two daughters gives lineages `[r, a]` and `[r, b]` | `self.decompose(seed=seed)`, the independent decomposition `[r, a]`, `[b]` | not executed | Colonies.SeedAsFlagRepeatsMother | Colonies.Colony.IterLineages |
| tuna/base/observable.py:426 | `flatten=[]` is a default created once, so every call without a list appends to, and returns, the same list | unroll `x` once, then `set_observable_list(y)` gives raw observables `[x, y]` | a new empty list per call, giving `[y]` | not executed | Functional.SharedDefaultLeaks | Functional.SetObservableList |
| tuna/stats/utils.py:266 | `reg.name` on a stored dict raises AttributeError whenever the name is free and new bounds equal stored ones | `add(tmin=a, tmax=b)` without a name on a fresh table whose 'ALL' region spans `a`..`b` | report the stored region's name and leave the table unchanged | not executed | StatsOptions.BoundsOfAllRaise | StatsOptions.Regions.Add |
