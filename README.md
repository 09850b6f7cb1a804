# Phase-field cell fields: a Dafny model of `load_files.py`

This project models the computational core of `load_files.py` from a post-processing toolkit for
phase-field cell simulations. The simulation writes one positions table per cell. Each table's file
name carries the cell's rank. It also writes a rank field: one 2D grid per timestep, in which every
pixel holds the rank of the cell that covers it.

The model covers four pieces of the file:

- **Rank from file name** (`RankName`). `int(re.findall(r'\d+', name)[-1])` gives the value of the
  last maximal run of decimal digits. A name with no digit raises an IndexError.
- **`load_pos`** (`Sorting`, `Positions`). A loop appends one table and one parsed rank per file.
  The ranks are then put in ascending order through `np.argsort`. Separately, the tables are sorted
  by the first entry of their `rank` column.
- **The gather of `load_property`** (`PropertyGather`). It builds a `[len(times), len(ranks)]` zero
  matrix. It writes column `rank` from `positions[rank][column]`, indexing both the matrix and the
  table list by the rank *value*.
- **`get_field` and the property switch** (`FieldPainter`, `Properties`). `get_field` paints a
  per-time, per-rank array onto a zero field of the rank field's shape. `load_property` and
  `load_fields` dispatch on the property name.

The imperative parts are written as methods over `array2`/`array3` with loop invariants: the
painter's nested loops, its masked assignment, the gather's column writes, and the appending loop
of `load_pos`. Each method is proved against a specification function. Name parsing, sorting and
the property switch are pure functions with lemmas.

Three behaviours of the code are worth noting:

- **Rank position vs rank value.** `get_field` reads column `indr`, the *position* of a rank in
  `ranks`. `load_property` writes column `rank`, the rank's *value*. The two agree only when the
  sorted ranks are exactly `0 … n-1`. `DenseRanks` shows that, for distinct ranks, in-bounds writes
  force exactly that. `GatherMatchesPaintColumn` shows that the two columns then coincide.
- **Duplicate ranks.** When a rank value occurs twice, the later `indr` overwrites the earlier one.
  A pixel therefore takes the column of the *last* occurrence (`LastIndexOf`). With duplicate ranks
  that column may never have been gathered, so such pixels show 0.
- **Unknown property names.** An unrecognised name makes both functions return `None` without raising.
  The model returns `Success(None)`. Exceptions are modelled as `Failure(LoadError)`.

## Model

| member | source | states |
|---|---|---|
| `RankName.DigitRuns` | load_files.py:45 | every match of `\d+` is a non-empty string of decimal digits; with `DigitRunsOfRun`, `DigitRunsSplit` and `DigitRunsEmpty` the matches are exactly the maximal digit runs, left to right |
| `RankName.DigitRunsOfRun` | load_files.py:45 | a maximal digit run at the front of the name is the first match, and matching resumes after it |
| `RankName.DigitRunsSplit` | load_files.py:45 | when the first part does not end in a digit, the matches of a concatenation are the matches of each part, in order |
| `RankName.DigitRunsEmpty` | load_files.py:45 | `findall` returns no match exactly when the name holds no digit |
| `RankName.RankFromFileNameLastRun` | load_files.py:45 | for a name `p + d + q` where `d` is a maximal digit run and `q` holds no digit, the rank is `int(d)` |
| `RankName.RankFromFileName` | load_files.py:45 | taking `[-1]` of the matches fails (`None`) exactly when the name holds no digit |
| `RankName.DecimalRoundTrip` | load_files.py:37 | the decimal rank written into a file name is non-empty, all digits, has no leading zero, and reads back as the same number |
| `RankName.RankFromPositionsFileName` | load_files.py:37-45 | for `<dir>/positions/neo_positions_p<rank>.csv`, the parsed rank is `rank`, whatever digits `dir` holds |
| `Sorting.SortBy` | load_files.py:49 | `list.sort` keeps the length of the list; its order and permutation are the two lemmas below |
| `Sorting.SortByAscending` | load_files.py:49 | after `list.sort(key=…)` the keys are in ascending order |
| `Sorting.SortByPermutation` | load_files.py:49 | `list.sort` returns a permutation of the list |
| `Sorting.SortByKeysPermutation` | load_files.py:49 | sorting by one key permutes the values of any other function of the elements |
| `Sorting.AscendingUnique` | load_files.py:48-50 | there is only one ascending arrangement of a multiset of ranks, so an unstable `argsort` gives the same ranks as a stable one |
| `Sorting.ArgSort` | load_files.py:48 | `np.argsort` returns a permutation of `0 … n-1` whose indices list the ranks in ascending order |
| `Sorting.ArgSortSorts` | load_files.py:48-50 | `ranks[argsort(ranks)]` is ascending and a permutation of the parsed ranks |
| `Sorting.SortByAgreesWithArgSort` | load_files.py:46-50 | sorting records by key and sorting the keys through `argsort` give the same key sequence |
| `Positions.SortedTablesMatchRanks` | load_files.py:46-50 | if every table starts with the rank in its file name, then after both sorts the `i`-th table belongs to the `i`-th rank |
| `Positions.SortedLoadFacts` | load_files.py:46-50 | once every name has a rank, the sorted ranks are ascending, non-negative, a permutation of the parsed ranks, and when names and tables agree they are the sorted tables' first ranks |
| `Positions.LoadPos` | load_files.py:35-52 | fails on the first file name without a digit; otherwise fails iff some table is empty (the sort key reads row 0); on success, ranks are ascending, non-negative, a permutation of the parsed ranks, and line up with the sorted tables when names and tables agree |
| `FieldPainter.LastIndexOf` | load_files.py:148-149 | the index whose write to a label survives is its last occurrence in `ranks`, or -1 if the label is not a rank |
| `FieldPainter.PaintLabel` | load_files.py:149 | the masked assignment sets exactly the pixels of timestep `t` labelled with the rank, and leaves every other pixel and timestep unchanged |
| `FieldPainter.GetField` | load_files.py:132-150 | the field has the rank field's shape; a pixel labelled with a rank shows `a[t, i]` for that rank's (last) position `i`; with distinct ranks, every pixel labelled `ranks[i]` shows `a[t, i]`; pixels with no known rank stay 0 |
| `PropertyGather.WriteColumn` | load_files.py:196 | `m[:, c] = values` changes column `c` only |
| `PropertyGather.GatherPair` | load_files.py:192-214 | fresh `[len(times), len(ranks)]` matrices; column `c` holds table `c`'s column if `c` is a rank and is 0 otherwise |
| `PropertyGather.Elementwise` | load_files.py:222 | the angle array applies the formula entry by entry to the two gathered arrays |
| `PropertyGather.DenseRanks` | load_files.py:193-197 | ascending distinct ranks are all valid column indices iff they are exactly `0 … n-1` |
| `PropertyGather.GatherInBoundsIffDense` | load_files.py:193-197 | for `load_pos`'s output, the gather is in bounds iff the ranks are `0 … n-1` and every table column fits the time axis |
| `PropertyGather.GatherMatchesPaintColumn` | load_files.py:195-196 | with dense ranks, rank position and rank value coincide, so the column `get_field` reads is the column the gather wrote for that rank |
| `Properties.ParseProperty` | load_files.py:192-234 | a name selects a property iff it is one of the five names, and then the property with that name |
| `Properties.ParsePropertyOfName` | load_files.py:153-160 | every property's name selects that property |
| `Properties.LoadedRanksDense` | load_files.py:193-197 | distinct loaded ranks that pass the gather are `0 … n-1` |
| `Properties.PixelShowsOwnCell` | load_files.py:146-149 | end to end with distinct ranks: a pixel labelled `L` shows the property of the `L`-th sorted table, whose columns fit the time axis; any other label shows 0 |
| `Properties.PaintingTableOwnsRank` | load_files.py:46-50 | when names and tables agree, the `L`-th sorted table is the one whose `rank` column starts with `L`, so the pixel shows its own cell's property |
| `Properties.LoadProperty` | load_files.py:189-234 | `load_pos`'s errors propagate unchanged (the first name without a digit, else an empty table); an unknown name returns nothing; otherwise the call fails iff a column write is out of bounds, else returns two gathered arrays for the 2D names and one angle array for the angle names |
| `Properties.LoadFields` | load_files.py:129-160 | same outcomes as `load_property`, including which `load_pos` error propagates; the returned fields have the rank field's shape and each pixel shows the property entry of the rank that labels it, or 0 |

## Left out

- File and directory I/O are inputs, not modelled: `glob.glob`, `pd.read_csv`, `np.load`, `load_grid` and `load_rankfield`. The listing with its parsed tables is a sequence of `PositionFile` in any order. The rank field and the time axis are parameters. `LoadFields` requires one rank-field snapshot per time, because `load_rankfield` builds it that way.
- The snapshot file name built with `'{:06.3f}'.format(time)` is float formatting and is not modelled.
- The angle formulas `arctan2(v1, v0)` and `sign(S1) * (arctan(S0/|S1|)/2 + π/4)` are parameters (`Angles`) applied entry by entry. Their ranges and their behaviour at `S1 == 0` (division by zero, NaN) are not modelled.
- Values are mathematical reals: no rounding, NaN or infinity.
- The rank field is a float array in the source. Here labels are integers, so float-to-integer comparison is not modelled.
- `CellTable` keeps the `time` column, which `load_pos` selects but the core never reads, and the columns the core reads (`rank`, `v0`, `v1`, `S0`, `S1`, `S0full`, `S1full`). The other selected columns (`x0`, `x1`, `r`, `total_interaction`, `neighbours`, `confine_interaction`, `growth_rate`) and pandas column selection are left out.
- RankName.RankFromFileName: `\d` covers only the ASCII digits `0`–`9`. Python's `str` patterns also match other Unicode decimal digits.
- Sorting.SortBy: its own contract states only the length. Ascending keys and the permutation are stated as separate lemmas (`SortByAscending`, `SortByPermutation`) so that they do not load every proof that sorts.
- Sorting.ArgSort: it is modelled as a stable sort, while numpy's default `argsort` is not stable. Only the index order among equal ranks can differ. The gathered ranks are identical (`AscendingUnique`).
- Properties.LoadProperty: the IndexError (rank beyond the matrix or the table list) and the ValueError (a series that does not fit the time axis) are merged into one `GatherFault`. Writes made before the exception are not modelled, because the result is discarded.
- The default argument `prop='velocity'` of `load_fields` and `load_property` is not modelled: `LoadFields` and `LoadProperty` always take the property name.
- Negative ranks cannot arise, because ranks come from `\d+`. The gather therefore does not model numpy's negative indexing.
