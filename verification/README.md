# Ocean forcing and control-run summary, modelled in Dafny

This project models the two pieces of logic in the pism-gris utility scripts
that can be stated once the netCDF and library plumbing is removed.

**Latitude-banded basal melt** (`data_sets/ocean_forcing/ocean_forcing.py`,
module `OceanForcing`). Two basal melt rates are turned into mass fluxes with
the ice density 910 kg m-3. A line in latitude is fitted through the two
reference points `(lat_0, flux_0)` and `(lat_1, flux_1)`. Each grid cell gets
that line at its latitude. The cell is then clamped to the southern value when
`Lat < lat_0`, and after that to the northern value when `Lat > lat_1`. With
`--process_mask`, cells whose mask is neither 0 nor 3 are land and get 0. The
same field is written into every time slice, and an all-zero basal
temperature field is written beside it. The latitude grid, the mask and the
number of time slices are inputs of the model.

**Control-run summary** (`latin_hypercube/nc2csv_ctrl.py`, modules
`LazySearch`, `Decimal`, `FilenameMetadata` and `ScalarSummary`). For every
path the directory search returned that is a regular file (line 17), the
script does the following:

- It reads the experiment id, the resolution and the RCP out of the path with
  lazy regular-expression searches (`id_(.+?)_`, `gris_g(.+?)m`,
  `rcp_(.+?)_`). The last two are converted to integers.
- It converts four series from kg to Gt.
- It shifts the mass series and the mass-change series so that they start at
  zero.
- It builds the year axis `2008 + linspace(0, n-1, n)`.
- It emits one row per time step, with the metadata repeated on every row.

The per-file tables are concatenated in discovery order. A failure in any file
aborts the whole run, and so does the final concatenation when no path was a
regular file, since there is then no table to concatenate.

`LazySearch` gives the exact semantics of a search for `P(.+?)T`:

- the earliest start position;
- at that position, the shortest non-empty group without a newline that is
  followed by `T`.

The first character of the group may be `T` itself.

Two behaviours of the code are worth stating plainly:

- **Malformed or unreadable files.** A failed search, a non-integer group or
  a missing variable aborts the whole run (`Collect`, `Extract`). Nothing is
  skipped except paths that are not regular files.
- **File order.** The files are processed in the order the directory search
  returns them. The model takes that order as an input sequence.

The forcing script also has two edge cases the model makes explicit:

- **Order of the reference latitudes.** The option help texts call `lat_0`
  the southern and `lat_1` the northern latitude (lines 26-29), but the code
  does not check that `lat_0 < lat_1`. The model covers
  both orders, and when `lat_0 > lat_1` the northern clamp wins
  (`NorthClampWins`).
- **Equal reference latitudes.** The slope then divides by zero, which raises
  an exception in the script. This is `Failure(DegenerateBand)`.

## Model

| member | source | states |
|---|---|---|
| OceanForcing.MassFlux | data_sets/ocean_forcing/ocean_forcing.py:38-41 | a mass flux divided by the ice density 910 gives back the melt rate |
| OceanForcing.FitBand | data_sets/ocean_forcing/ocean_forcing.py:38-61 | fails exactly when lat_0 == lat_1 (division by zero); otherwise the fluxes are 910 times the rates and the fitted line passes through both reference points |
| OceanForcing.LineIsInterpolation | data_sets/ocean_forcing/ocean_forcing.py:60-61 | at every latitude the fitted line equals linear interpolation between the two reference points |
| OceanForcing.CellFlux | data_sets/ocean_forcing/ocean_forcing.py:139-143 | a land cell gets 0; an unmasked cell north of lat_1 gets exactly flux_1, and one south of lat_0 (and not north of lat_1) exactly flux_0 |
| OceanForcing.CellFluxIsProfile | data_sets/ocean_forcing/ocean_forcing.py:139-143 | the script's assignment order (line, southern clamp, northern clamp, land override) equals the reference profile: northern flux north of lat_1, else southern flux south of lat_0, else interpolation; 0 on land |
| OceanForcing.ClampedOutsideBand | data_sets/ocean_forcing/ocean_forcing.py:139-141 | with lat_0 < lat_1, a cell at or south of lat_0 gets exactly flux_0 and one at or north of lat_1 exactly flux_1, so the field is continuous at the band edges |
| OceanForcing.NorthClampWins | data_sets/ocean_forcing/ocean_forcing.py:140-141 | with lat_1 < Lat < lat_0 both clamps apply and the cell ends with the northern value |
| OceanForcing.CellFluxBetweenFluxes | data_sets/ocean_forcing/ocean_forcing.py:139-141 | with lat_0 < lat_1 every unmasked value lies between flux_0 and flux_1 inclusive |
| OceanForcing.MeltField | data_sets/ocean_forcing/ocean_forcing.py:127-143 | the field has the grid's shape; each cell is 0 where the mask is neither 0 nor 3 and the reference profile of its latitude elsewhere |
| OceanForcing.Zeros | data_sets/ocean_forcing/ocean_forcing.py:145 | the temperature field has the grid's shape and is 0 everywhere |
| OceanForcing.Synthesize | data_sets/ocean_forcing/ocean_forcing.py:60-145 | fails with DegenerateBand, MissingMask or MaskShapeMismatch exactly when those apply, in that order, the shape mismatch only when there is at least one time slice, since the mask is applied inside the time loop; otherwise nt melt slices, each the masked reference field and all identical, and nt all-zero temperature slices |
| OceanForcing.NoSlicesIgnoreMaskShape | data_sets/ocean_forcing/ocean_forcing.py:127-145 | with no time slices the loop body never runs, so a present mask of any shape is accepted and nothing is written |
| OceanForcing.DefaultBand | data_sets/ocean_forcing/ocean_forcing.py:22-41 | the default options give fluxes 207480 and 9100 kg m-2 yr-1 |
| LazySearch.ShortestGroup | latin_hypercube/nc2csv_ctrl.py:19 | the lazy group length found is the shortest newline-free group followed by the terminator; None means no such group exists |
| LazySearch.SearchFrom | latin_hypercube/nc2csv_ctrl.py:19 | the match found is at the earliest start position with any match, with the shortest group there; None means no match at or after i |
| LazySearch.FirstMatch | latin_hypercube/nc2csv_ctrl.py:19 | returns the first match, and None exactly when the pattern matches nowhere |
| LazySearch.Search | latin_hypercube/nc2csv_ctrl.py:19-21 | the group returned is that of the first match; None exactly when nothing matches |
| LazySearch.FirstMatchUnique | latin_hypercube/nc2csv_ctrl.py:19 | there is at most one first match, so the search result is determined |
| LazySearch.SearchReportsFirstMatch | latin_hypercube/nc2csv_ctrl.py:19 | conversely, the group of any first match is what the search returns |
| LazySearch.SearchGroupShape | latin_hypercube/nc2csv_ctrl.py:19-21 | a found group is non-empty and newline-free, sits between the prefix and the terminator, and has no terminator after its first character |
| Decimal.ParseNat | latin_hypercube/nc2csv_ctrl.py:20-21 | a string is an integer exactly when it is a non-empty run of digits |
| Decimal.ParseShow | latin_hypercube/nc2csv_ctrl.py:20-21 | parsing the decimal representation of n gives n |
| Decimal.ShowValueOf | latin_hypercube/nc2csv_ctrl.py:20-21 | a digit string without leading zeros is the representation of its value |
| FilenameMetadata.IntegerGroup | latin_hypercube/nc2csv_ctrl.py:20-21 | NoMatch exactly when the pattern matches nowhere; NotAnInteger carries the first group, which is not all digits; every error names the field read; success exactly when the first group is all digits, and then the value of that group |
| FilenameMetadata.ParseMetadata | latin_hypercube/nc2csv_ctrl.py:19-21 | the id is the first group of id_(.+?)_; resolution and RCP are the integer values of the first groups of gris_g(.+?)m and rcp_(.+?)_; succeeds exactly when all three succeed; errors come in the script's order: a missing id match first, then the resolution read's error, then the RCP read's |
| FilenameMetadata.GroupMayStartWithTerminator | latin_hypercube/nc2csv_ctrl.py:19 | in "id__x_" the experiment id is "_x" |
| FilenameMetadata.ResolutionExample | latin_hypercube/nc2csv_ctrl.py:20 | in "ts_gris_g900m.nc" the resolution is 900 |
| ScalarSummary.ToGiga | latin_hypercube/nc2csv_ctrl.py:22-27 | each converted value times 1e12 is the original value |
| ScalarSummary.Baseline | latin_hypercube/nc2csv_ctrl.py:22-25 | the shifted series starts at 0 and keeps every difference between elements |
| ScalarSummary.BaselineUnique | latin_hypercube/nc2csv_ctrl.py:22-25 | any series starting at 0 with the same consecutive differences is the baseline series |
| ScalarSummary.NormalizedAsWritten | latin_hypercube/nc2csv_ctrl.py:22-25 | as written, normalisation fails with NoFirstRecord exactly on series of fewer than two records; otherwise element i is (x_i - x_0) / 1e12 |
| ScalarSummary.Normalized | latin_hypercube/nc2csv_ctrl.py:22-25 | fails only on an empty series; element i is (x_i - x_0) / 1e12 |
| ScalarSummary.NormalizedAgreement | latin_hypercube/nc2csv_ctrl.py:22-25 | the as-written and the corrected normalisation agree on every series except one of a single record, which the first rejects and the second maps to [0] |
| ScalarSummary.OneRecordSeries | latin_hypercube/nc2csv_ctrl.py:22-23 | for [5e12], the as-written normalisation fails while the corrected one gives [0] |
| ScalarSummary.NormalizedExample | latin_hypercube/nc2csv_ctrl.py:22-23 | [5e12, 6e12, 7e12] normalises to [0, 1, 2] |
| ScalarSummary.Linspace | latin_hypercube/nc2csv_ctrl.py:29 | n points; for n >= 2, point i is lo + i (hi - lo) / (n - 1) and the last is exactly hi; for n = 1 the single point is lo |
| ScalarSummary.OffsetsCount | latin_hypercube/nc2csv_ctrl.py:29 | linspace(0, n-1, n) is 0, 1, ..., n-1 |
| ScalarSummary.YearAxis | latin_hypercube/nc2csv_ctrl.py:28-29 | the year column is start, start+1, ..., start+n-1 |
| ScalarSummary.YearAxisExample | latin_hypercube/nc2csv_ctrl.py:12-29 | 2008 with three steps gives 2008, 2009, 2010 |
| ScalarSummary.Variable | latin_hypercube/nc2csv_ctrl.py:22-27 | a series is read exactly when the variable exists; otherwise MissingVariable names it |
| ScalarSummary.ReadColumns | latin_hypercube/nc2csv_ctrl.py:22-27 | the four series are read exactly when all four variables exist and both mass series are non-empty; the mass series are baseline-shifted and converted, the two rates only converted; a failure is the first of, in order: limnsw missing, limnsw empty, the mass-change series missing, it empty, the SMB series missing, the discharge series missing, each naming the variable |
| ScalarSummary.Rows | latin_hypercube/nc2csv_ctrl.py:31-55 | one row per time step, columns in the table's order, metadata repeated on every row |
| ScalarSummary.FileTable | latin_hypercube/nc2csv_ctrl.py:17-55 | a bad file name is the first error, then the first failed series read, then LengthMismatch when the lengths differ; success exactly when the name parses and all four series exist, the mass series are non-empty and all lengths agree; then n rows with year start+i, the two baseline-shifted mass series, the two unshifted rates in Gt, and the same id, RCP and resolution |
| ScalarSummary.EntryTable | latin_hypercube/nc2csv_ctrl.py:15-17 | a path that is not a regular file contributes no rows; a regular file contributes its table |
| ScalarSummary.Concat | latin_hypercube/nc2csv_ctrl.py:59 | succeeds exactly when every table does; a failure is the first failing table's; the row count is the sum of the tables' row counts |
| ScalarSummary.ConcatAppend | latin_hypercube/nc2csv_ctrl.py:59 | concatenating two lists of tables is concatenating their concatenations, and a failure in the first list wins |
| ScalarSummary.ConcatIndex | latin_hypercube/nc2csv_ctrl.py:59 | element i of table k sits at offset (rows of tables 0..k-1) + i |
| ScalarSummary.ConcatPrefix | latin_hypercube/nc2csv_ctrl.py:59 | the tables in front of a successful concatenation concatenate successfully too |
| ScalarSummary.ConcatOrder | latin_hypercube/nc2csv_ctrl.py:59 | element i of table k comes right after all rows of the tables before k, so the output follows the order of the tables |
| ScalarSummary.EntryRows | latin_hypercube/nc2csv_ctrl.py:28-31 | a successful entry contributes one row per time step of its mass series |
| ScalarSummary.Tables | latin_hypercube/nc2csv_ctrl.py:15-17 | one result per path, in the order of the paths, the k-th being that path's table |
| ScalarSummary.TotalLengthIsSteps | latin_hypercube/nc2csv_ctrl.py:28-59 | when every file succeeds, the row count equals the total number of time steps |
| ScalarSummary.Collect | latin_hypercube/nc2csv_ctrl.py:14-58 | the loop succeeds exactly when every entry does; otherwise it fails with the first failing file's error; on success it has one row per time step of every regular file |
| ScalarSummary.CollectCons | latin_hypercube/nc2csv_ctrl.py:15-58 | the loop handles the first entry and then the rest |
| ScalarSummary.Extract | latin_hypercube/nc2csv_ctrl.py:14-59 | the run succeeds exactly when the loop does and some path is a regular file; a failing loop's error is the run's; a successful loop over no regular file ends in NothingToConcatenate |
| ScalarSummary.NoRegularFileFails | latin_hypercube/nc2csv_ctrl.py:17-59 | with no regular file among the paths, including no paths at all, the run fails with NothingToConcatenate |
| ScalarSummary.RegularFiles | latin_hypercube/nc2csv_ctrl.py:17 | keeps exactly the regular files of the input: every kept entry is a regular input entry, and every regular input entry is kept |
| ScalarSummary.RegularFilesAppend | latin_hypercube/nc2csv_ctrl.py:15-17 | the filter keeps the order: filtering a + b is filtering a, then b |
| ScalarSummary.CollectSkipsNonRegular | latin_hypercube/nc2csv_ctrl.py:15-17 | the loop over all paths equals the loop over the regular files alone |
| ScalarSummary.NonRegularSkipped | latin_hypercube/nc2csv_ctrl.py:15-17 | the run over all paths equals the run over the regular files alone |

## Left out

- netCDF I/O is not modelled. This covers opening, syncing and closing the
  files, creating dimensions and variables, and their attributes
  (`ocean_forcing.py` lines 48, 70-125, 146-149; `nc2csv_ctrl.py` lines 18
  and 58). Its results become inputs: the number of time slices, the mask,
  and the variables of each file.
- The time axis `time[:] = [1.]` and bounds `[0, 1]` are not modelled. What
  they do depends on how netCDF fills an unlimited dimension. `Synthesize`
  takes the number of time slices `nt` as a parameter.
- Re-running the forcing script on a processed file is not modelled. Line 124
  reads `nc.variabels`, so a second run on a file that already has
  `shelfbtemp` raises an error. Idempotence is therefore not claimed.
- The map projection and its inverse (`ocean_forcing.py` lines 52-54 and 68)
  are a foreign library. The latitude grid is an input.
- `synthetic/create_geometry.py` is not part of this model. It is
  floating-point numerics, complex square roots, scattered-data
  interpolation and plotting, all through foreign libraries.
- Option parsing, progress printing and the directory search are not
  modelled. The search's result is the input list of entries.
- The pandas table, its gzip-compressed CSV output and the string coercion
  of `np.hstack` are not modelled. Rows are typed records.
- Floating point is not modelled: every value is `real`. Equalities such as
  `a*lat_0 + b == flux_0` are proved over the reals, not in IEEE arithmetic.
  Missing values in netCDF masked arrays are not modelled either.
- ScalarSummary.ReadColumns: follows the corrected normalisation
  `Normalized`, so it succeeds on a mass series of a single record, where the
  script raises an IndexError (see "## Findings"). `NormalizedAgreement`
  proves that this is the only series on which the two differ.
- ScalarSummary.FileTable: builds on `ReadColumns` and so accepts files whose
  mass series have a single record, which the script rejects.
- ScalarSummary.Collect: builds on `FileTable`, with the same one-record
  difference from the script.
- ScalarSummary.Extract: builds on `Collect`, with the same one-record
  difference from the script.
- Decimal.ParseNat: accepts digits only. Python's `int()` also accepts
  surrounding whitespace, a sign, underscores between digits and non-ASCII
  digits.
- LazySearch.Search: handles only patterns made of a literal prefix, a lazy
  `.+?` group and a one-character literal terminator. These are the three
  patterns the script uses.

## Findings

| source | as written | input that shows it | evidently intended | confidence | as-written member | corrected member |
|---|---|---|---|---|---|---|
| latin_hypercube/nc2csv_ctrl.py:22-25 | `np.squeeze(v)[0]` after reading each mass series. Squeezing a one-record series leaves a 0-d array, and indexing it with `[0]` raises `IndexError`, which aborts the whole run. | a result file whose `limnsw` has the single record `[5e12]` | the file yields one row with mass 0 | medium; not executed | ScalarSummary.NormalizedAsWritten (exhibited by ScalarSummary.OneRecordSeries) | ScalarSummary.Normalized (used by ReadColumns; agreement proved by ScalarSummary.NormalizedAgreement) |
