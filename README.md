# Pointing correction model and batch partition

This project models, in Dafny, the core of the COMAP Level-1 pointing
correction: the parametric azimuth/elevation `PointingModel` and the batch
driver that spreads the Level-1 files over MPI workers.

- **`Pointing`** (`pointing.dfy`) is the `PointingModel` class.
  - A fixed registry maps each axis to named basis terms. There are five
    azimuth terms (`function_A` to `function_E`, parameters `A` to `E`) and
    four elevation terms (`function_a` to `function_d`). Elevation terms `c`
    and `d` reuse the azimuth parameter names `D` and `E`.
  - Construction looks up the chosen names in their axis's registry. An
    unknown name is the `KeyError` the lookup raises.
  - Construction then derives the sorted list of distinct parameter names
    (`get_unique_params`). `nparams` is the length of that list.
  - Evaluation (`model_components`, `__call__`) binds a positional value
    vector to those names with `dict(zip(...))`. It then sums the selected
    terms of each axis sample by sample, starting from the scalar 0 of
    Python's `sum`. A term whose parameter received no value is the
    `KeyError` of the dictionary lookup.
  - `sin` and `cos` are a `Trig` value the caller supplies. Every property
    holds for any pair of functions, except the concrete two-term example
    (`TwoTermSums`, `TwoTermEvaluation`, `TwoTermScenario`), which assumes
    cos(0) = 1.
- **`Lex`** (`lex.dfy`) holds the code-point order numpy uses to sort
  unicode strings. It also holds the sorted, duplicate-free enumeration that
  `np.sort(list(set(...)))` computes, and proves that this enumeration is
  unique.
- **`PointingProperties`** (`pointing_properties.dfy`) proves properties of
  the model:
  - registry aliasing and axis-local lookup;
  - that the unique parameters do not depend on order or repetition;
  - the default model's seven parameters;
  - positional binding, and that surplus values are ignored;
  - that both aliased terms read one shared value;
  - linearity in the parameter vector and a zero vector giving zero
    corrections;
  - a concrete two-term evaluation.
- **`BatchRun`** (`batch_run.dfy`) models the driver script.
  - Reading the list with `ndmin=1`.
  - The index `np.sort(np.mod(np.arange(n), size))` and the mask
    `filelist[idx == rank]`.
  - The per-file call order: first undo the earlier correction, then apply
    the new one, both with archive suffix `_191101`.
  - It proves that each worker's share is one contiguous slice of the list
    that starts where the lower ranks' slices end. Shares differ in size by
    at most one, and laid end to end they give back the whole list.

The code accepts two inputs a caller might expect it to reject, and the model
follows the code:

- A selection may name the same term twice. The code does not reject it.
- A value vector longer than `nparams`. `zip` drops the surplus
  (`PointingProperties.SurplusValuesIgnored`).

## Model

| member | source | states |
|---|---|---|
| Pointing.Registry | PointingCorrection.py:18-56 | The azimuth registry holds exactly `function_A` to `function_E` and the elevation registry exactly `function_a` to `function_d`. Every entry is filed under its own name. |
| Pointing.Apply | PointingCorrection.py:20-52 | Each registered lambda returns its parameter times its basis function: 1, cos el, sin el, -sin az sin el, -cos az sin el, -cos az or sin az. |
| Pointing.Resolve | PointingCorrection.py:58-61 | The lookup succeeds exactly when every requested name is registered for that axis. Then term i is the registry entry of name i. Otherwise the error names the first unregistered name and its axis. |
| Pointing.Build | PointingCorrection.py:16-63 | Construction succeeds exactly when all azimuth names are azimuth terms and all elevation names are elevation terms. The result holds the looked-up terms in order, with `unique_params` derived from them. Otherwise the error is the first unregistered name of the azimuth list. Only when every azimuth name is registered is it the first unregistered name of the elevation list. |
| Pointing.UniqueParams | PointingCorrection.py:65-68 | The result is strictly sorted, so it has no duplicates. It holds exactly the parameter names that some selected azimuth or elevation term uses. |
| Lex.SortedSet | PointingCorrection.py:66-68 | Set-then-sort: strictly sorted, with exactly the elements of the input. |
| Lex.SortedSetsEqual | PointingCorrection.py:68 | Two strictly sorted sequences with the same elements are equal, so the sorted set does not depend on set iteration order. |
| Lex.LessIsLexBefore | PointingCorrection.py:68 | The character-by-character comparison used for sorting is lexicographic order: `a` is a proper prefix of `b`, or `a` has the smaller code point where they first differ. |
| Pointing.PointingModel.NParams | PointingCorrection.py:70-72 | In a constructed model, `nparams` is the number of distinct parameter names the selected terms use. |
| Pointing.PointingModel.Binding | PointingCorrection.py:75 | Only unique parameter names are keys. In a constructed model, the first min(nparams, len(values)) names are bound, name i to value i. |
| PointingProperties.BindPrefix | PointingCorrection.py:75 | `zip` reads no value past the last name: the binding of a longer value vector equals that of its first len(names) values. |
| Pointing.Bind | PointingCorrection.py:75 | `dict(zip(names, values))`: the keys are the first min(len(names), len(values)) names. Each key maps to the value at the last position where it occurs. |
| Pointing.TermSamples | PointingCorrection.py:77-81 | One term evaluated on every sample: one entry per sample, entry j being the term at (azimuth j, elevation j). |
| Pointing.Plus | PointingCorrection.py:77-81 | `acc + ys` as numpy adds: a scalar accumulator is broadcast over the samples, and an array accumulator is added entry by entry. |
| Pointing.PlusExtendsSum | PointingCorrection.py:77-81 | Adding the last term's samples to the sum of the other terms gives the sum of all the terms at every sample. |
| Pointing.SumTerms | PointingCorrection.py:77-81 | The sum of one axis succeeds exactly when every selected term's parameter is bound. With no term it is the scalar 0; otherwise sample j is the ordered sum of the terms at sample j. A failure names the first term's parameter that is unbound. |
| Pointing.BoundIffEnoughValues | PointingCorrection.py:74-81 | In a constructed model, every selected term of both axes finds its parameter exactly when at least `nparams` values are supplied. |
| Pointing.FirstMissingUnbound | PointingCorrection.py:74-75 | With fewer values than `nparams`, the unique name at position len(values) receives no value. |
| Pointing.PointingModel.ModelComponents | PointingCorrection.py:74-83 | Evaluation succeeds exactly when at least `nparams` values are given. The azimuth correction is the sum of the azimuth terms only, and the elevation correction that of the elevation terms only, under the positional binding. A failure is the KeyError of the first term, azimuth terms before elevation terms, whose parameter is unbound. |
| Pointing.PointingModel.Call | PointingCorrection.py:85-87 | Calling the model returns exactly the pair, or the error, of `model_components`. |
| PointingProperties.RegistryAliasing | PointingCorrection.py:18-54 | The registry has five azimuth and four elevation terms. Elevation terms c and d use the same parameter names as azimuth terms D and E. |
| PointingProperties.AzimuthEntries | PointingCorrection.py:18-38 | The azimuth registry maps `function_A` to `function_E` to the constant, cos el, sin el, -sin az sin el and -cos az sin el terms with parameters A to E. |
| PointingProperties.ElevationEntries | PointingCorrection.py:38-54 | The elevation registry maps `function_a` to `function_d` to the constant and cos el terms with parameters a and b, and to the -cos az and sin az terms with parameters D and E. |
| PointingProperties.NameLookedUpInItsOwnAxis | PointingCorrection.py:58-61 | An elevation name in the azimuth list fails with an azimuth KeyError, and an azimuth name in the elevation list fails with an elevation KeyError. |
| PointingProperties.UniqueParamsIgnoreOrderAndRepetition | PointingCorrection.py:65-72 | Two constructed models whose selections use the same parameter names have the same `unique_params` and `nparams`, whatever the order, repetition or axis of their terms. |
| PointingProperties.DefaultSelection | PointingCorrection.py:16 | The default names resolve to azimuth terms A to E and elevation terms a to c, in order. |
| PointingProperties.DefaultUniqueParams | PointingCorrection.py:63-72 | With terms A to E and a to c the unique parameters are A, B, C, D, E, a, b: elevation term c adds nothing because it reuses D. |
| PointingProperties.DefaultModelParams | PointingCorrection.py:15-72 | The default-constructed model has `nparams` 7. |
| PointingProperties.PositionalBinding | PointingCorrection.py:75 | Value i is bound to the i-th sorted unique name. Exactly min(nparams, len(values)) names are bound. |
| PointingProperties.SurplusValuesIgnored | PointingCorrection.py:74-83 | Evaluating with more than `nparams` values gives the same result as evaluating with the first `nparams` of them. |
| PointingProperties.SharedCalibrationValue | PointingCorrection.py:75-81 | An azimuth term and an elevation term that declare the same parameter name are both evaluated exactly as if given the one value at that name's position in the value vector. |
| PointingProperties.DefaultModelAliasesD | PointingCorrection.py:47-49 | In the default model azimuth term D and elevation term c both take the fourth value. |
| PointingProperties.ApplyLinear | PointingCorrection.py:19-53 | Every registered term is linear in its parameter. |
| PointingProperties.PointSumLinear | PointingCorrection.py:77-81 | Scaling every bound parameter by c scales a sample's sum by c, whatever the basis-function values. |
| PointingProperties.LinearInParameters | PointingCorrection.py:74-83 | Scaling the whole value vector by c scales both corrections by c. |
| PointingProperties.ZeroParametersZeroCorrection | PointingCorrection.py:74-83 | An all-zero value vector gives all-zero azimuth and elevation corrections for any azimuth and elevation. |
| PointingProperties.TwoTermUniqueParams | PointingCorrection.py:65-68 | Azimuth terms A, B with elevation term a need exactly the parameters A, B, a. |
| PointingProperties.TwoTermSums | PointingCorrection.py:77-81 | With A=1, B=2, a=3 and cos(0)=1, the azimuth sum at az=el=0 is 1 + 2 cos(0) = 3 and the elevation sum is 3. |
| PointingProperties.TwoTermEvaluation | PointingCorrection.py:74-87 | That model called on one sample at az=el=0 with values 1, 2, 3 returns the arrays [3] and [3]. |
| PointingProperties.TwoTermScenario | PointingCorrection.py:15-87 | Construction from the names and the call together give that same pair. |
| BatchRun.LoadFileList | batch_run.py:21 | With `ndmin=1` the list is always one-dimensional. Without it, a single entry would be squeezed to a 0-d array. |
| BatchRun.SingleFileStillAList | batch_run.py:21 | A list file naming one file still yields a one-element list. |
| BatchRun.Residues | batch_run.py:23 | `np.mod(np.arange(n), size)` has n entries, each in [0, size). |
| BatchRun.Sort | batch_run.py:23 | `np.sort` returns an ascending permutation of its input. |
| BatchRun.SortedPermutationsEqual | batch_run.py:23 | A sorted permutation is unique, so the index does not depend on the sorting algorithm. |
| BatchRun.ResidueCounts | batch_run.py:23 | Rank r < size occurs n / size times among the residues, plus one when r < n mod size. No other value occurs. |
| BatchRun.Blocks | batch_run.py:23 | The blocks of ranks r0 to size-1 are sorted and hold only those ranks. |
| BatchRun.RankIndex | batch_run.py:23 | The index has one entry per file, is sorted, and every entry is a rank below `size`. Rank r occurs n / size times, plus one when r < n mod size, and no other value occurs. |
| BatchRun.RankIndexIsBlocks | batch_run.py:23 | The sorted residues are block after block: every rank repeated as often as it owns files, in rank order. |
| BatchRun.Mask | batch_run.py:24 | `filelist[idx == rank]` keeps as many files as `idx` has entries equal to `rank`. |
| BatchRun.MaskOfInterval | batch_run.py:24 | A mask that selects exactly positions lo to hi-1 keeps the slice `files[lo..hi]` in order. |
| BatchRun.Share | batch_run.py:23-24 | Worker `rank` of `size` keeps n / size files, plus one if rank < n mod size. |
| BatchRun.OwnerIff | batch_run.py:23-24 | Position i goes to rank r exactly when i lies in r's block, so every file has exactly one owner. |
| BatchRun.OwnedPositions | batch_run.py:23-24 | The positions whose index equals `rank` are exactly those from the start of its slice up to its end, and that end lies within the list. |
| BatchRun.ShareIsSlice | batch_run.py:23-24 | Each worker's files are one contiguous slice of the list, in list order. |
| BatchRun.LowerRanksComeFirst | batch_run.py:23-24 | The slice of a lower rank ends before the slice of a higher rank begins. |
| BatchRun.StartClosedForm | batch_run.py:23-24 | The slice of rank r begins at r * (n / size) + min(r, n mod size). |
| BatchRun.AllBlocksCoverList | batch_run.py:23-24 | The slices of all ranks together are exactly as long as the list. |
| BatchRun.SliceBounds | batch_run.py:23-24 | Rank 0's slice starts at 0, the starts never decrease with the rank, each slice ends where the next rank's begins, and the slice after the last rank starts at the end of the list. |
| BatchRun.SharesBalanced | batch_run.py:23-24 | Any two workers' shares differ in size by at most one. |
| BatchRun.Shares | batch_run.py:23-24 | Entry `rank` of the per-rank listing is that worker's share. |
| BatchRun.SharesPartition | batch_run.py:23-24 | The shares of ranks 0 to size-1, laid end to end, are the whole list: nothing is lost, duplicated or reordered. |
| BatchRun.ProcessFiles | batch_run.py:31-33 | For each file in order, the undo call is made first and then the update call with the same date string, parameters and archive suffix `_191101`. Nothing else is called. |
| BatchRun.RunWorker | batch_run.py:23-33 | A worker processes exactly its own share, with the same two calls per file in that order. |

## Left out

- Numerical arithmetic: sample values are exact reals, and `sin` and `cos` are uninterpreted functions supplied by the caller. Floating-point rounding and the units of the angles are not modelled.
- Pointing.SumTerms: requires equal-length azimuth and elevation sequences. numpy broadcasting of a scalar or of arrays of different shapes is not modelled.
- Pointing.PointingModel.ModelComponents: same equal-length requirement as `SumTerms`, for the same reason.
- The registry is fixed. Replacing `available_functions` on an instance after construction is not modelled.
- Every registered term declares exactly one parameter, so a term's record holds one name. Calling a term with the wrong number of arguments cannot happen with this registry.
- `update_level1_file` (PointingCorrection.py:90 onwards): its HDF5 reading, archiving and writing, the coordinate conversion and the metadata attribute are not part of this model.
- `reverse_update_level1_file`, `DATESTR_20230814` and `PARAMS_20230814` are not part of this model. The date string and the parameter vector are inputs of `BatchRun.RunWorker`, and the two calls are recorded in a trace rather than performed.
- The visible `update_level1_file` takes two arguments, while the driver passes four. The trace records the calls as the driver writes them and does not check them against a signature.
- MPI (`COMM_WORLD`, `Get_rank`, `Get_size`) is left out. The rank and size are inputs, with `1 <= size` and `rank < size` as MPI guarantees.
- The `tqdm` progress bar on rank 0 only displays progress and is left out.
- Reading and splitting the list file is left out: `np.loadtxt` is given the entries already parsed. Only the `ndmin` shape rule is modelled.
- An exception raised inside a call stops the driver's loop. The trace models the case where every call returns.
- The `matplotlib`, `h5py`, `os` and `sys` imports and `setup.py` are packaging and I/O and are left out.
