# Artifact and training-data loading of the disease-prediction dashboard

This project models the data-loading layer of a dashboard that predicts a disease from symptom checkboxes (`src/shared.py`). It covers four pieces:

- **Artifact resolution** (`load_artifacts`). Each of the trained model, the selected-feature list and the label encoder is looked up along its own ordered list of candidate paths.
- **Training-data loading** (`load_training_data`). Four CSV files are read. The label files are reduced to their first column. The feature tables are projected onto the expected feature list, then stacked into `X_all`.
- **Label decoding** (`decode_labels`). Class ids are turned back into disease names. Every failure falls back to the input.
- **Display conversion** (`ensure_arrow_compatibility`). Column dtype tags are normalised, and the last-resort string path replaces the sentinel strings.

The filesystem, joblib and pandas are replaced by abstract values:

- `FileSystem.Disk` is a record of total functions: whether a path exists, what unpickling it yields, and what reading it as CSV yields. `None` stands for the exception the load raises.
- A table (`Frames.Frame`) is a row index plus named, dtype-tagged columns of cells.
- Which of pandas' casts succeeds on a column is a parameter (`Display.CastOutcomes`).
- The label encoder is its `inverse_transform` (`Labels.Encoder`).

Modules follow the source's structure:

- `Results`: option and result types.
- `Numerals`: `str` of an int and the integer strings `pd.to_numeric` reads.
- `Frames`: tables and series.
- `FileSystem`: paths, pathlib's `suffix`, and the disk.
- `Artifacts`: `load_artifacts`.
- `TrainingData`: `load_training_data`.
- `Labels`: `decode_labels`.
- `Display`: `ensure_arrow_compatibility`.

Two behaviours of the code shape the model:

- For the model and for the label encoder, one `try` wraps the whole candidate loop (src/shared.py:181-187, 203-209). The first candidate that exists decides. If loading it raises, the slot stays empty and later candidates are not tried. Only the feature-list loop (src/shared.py:189-200) catches a failure per candidate and moves on.
- `load_training_data` catches nothing around its reads (src/shared.py:216-226). A `read_csv` that raises, or a label file without columns (`iloc[:, 0]`), escapes the function. The model returns `Err` for these.

## Model

| member | source | states |
|---|---|---|
| `Artifacts.FirstExistingLoad` | src/shared.py:180-187 | The slot is what loading the first existing candidate yields, so a load failure there leaves it `None`. It is `None` when no candidate exists. |
| `Artifacts.FirstExistingIndex` | src/shared.py:182-185 | When some candidate exists there is a first one: it exists and no earlier candidate does. |
| `Artifacts.LaterCandidatesNeverTried` | src/shared.py:181-187 | Loaders that agree at the first existing candidate give the same slot, whatever they do at later candidates. |
| `Artifacts.FirstExistingLoadCongruent` | src/shared.py:202-209 | The search depends only on the existence test and the loader at the listed candidates. |
| `Artifacts.TryFeatureCandidate` | src/shared.py:191-200 | A candidate yields features only if it exists. A suffix other than `.pkl`/`.csv` yields nothing. An existing `.pkl` yields its unpickled list. An existing `.csv` yields the CSV rule exactly when it parses. |
| `Artifacts.FeaturesFromCsv` | src/shared.py:196-197 | A one-column CSV gives that column's cells in row order, one per row. Any other CSV gives its header names in column order. |
| `Artifacts.FirstAcceptedFeatures` | src/shared.py:189-200 | The result is the list of the first candidate that yields one. It is `None` when every candidate fails. |
| `Artifacts.RejectedCandidateSkipped` | src/shared.py:190-200 | Deleting a candidate that yields nothing (missing, wrong suffix, failed load) from any position leaves the outcome unchanged. |
| `Artifacts.FeatureFileSuffixes` | src/shared.py:163-172 | `selected_features.pkl` has suffix `.pkl` and `selected_features.csv` has suffix `.csv`. |
| `Artifacts.FeatureCandidateNames` | src/shared.py:163-172 | Candidates 0, 1, 2 and 6 are the pickle and the others the CSV, so no candidate is ignored by the loop. |
| `Artifacts.LoadArtifacts` | src/shared.py:155-211 | The model and the encoder are the first-existing loads of their lists, or `None` when none exists. The features are the first accepted list, or `[]` when no candidate yields one. |
| `Artifacts.ModelSlotIndependent` | src/shared.py:180-211 | Disks agreeing on existence and on model loading resolve the same model, whatever their feature and encoder files hold. |
| `FileSystem.LastIndexOf` | src/shared.py:192-195 | The result is the position of the last occurrence of the character, or `None` when the string lacks it (the `rfind` behind `suffix`). |
| `FileSystem.Suffix` | src/shared.py:192-195 | A non-empty suffix is a proper tail of the name that starts with its only dot. An empty suffix means the name has no dot after its first character, or ends with a dot. |
| `FileSystem.SuffixOfExtension` | src/shared.py:192-195 | `stem.ext` with a non-empty stem and a dot-free extension has suffix `.ext`. |
| `TrainingData.KeepKnown` | src/shared.py:234 | A name is kept iff it is an expected feature and a column name. Each column name is kept as many times as the expected list holds it. The kept names occur in the expected list in order. |
| `TrainingData.Project` | src/shared.py:233-236 | The projected columns are exactly the expected features present in the table, in expected order. Each is a column of the input. Extra columns are dropped, missing ones are tolerated, and the index is unchanged. |
| `TrainingData.ProjectIfExpected` | src/shared.py:231-236 | With a `None` or empty expected list the table is unchanged. Otherwise a present table becomes its projection onto the list, whose columns are the input's own, and an absent one stays absent. |
| `TrainingData.KeepKnownMembership` | src/shared.py:234 | Filtering depends only on which expected features are column names. |
| `TrainingData.KeepKnownIdempotent` | src/shared.py:234 | Filtering the kept names again by the same list keeps them all. |
| `TrainingData.ProjectIdempotent` | src/shared.py:233-236 | Projecting twice onto the same list equals projecting once. |
| `TrainingData.KeepKnownOfNames` | src/shared.py:234 | A list of column names, used as features, is kept whole and in order. |
| `TrainingData.ProjectOntoOwnHeader` | src/shared.py:197 | A table with distinct names and other than one column, read back as a feature CSV, yields a list that projects the table onto itself unchanged. |
| `TrainingData.CommonDtype` | src/shared.py:242 | Stacking two columns of one dtype keeps that dtype. int64 with float64 gives float64, and any other mix gives object. A column one frame lacks gets missing cells: int64 then becomes float64, bool becomes object, and other dtypes stay. |
| `TrainingData.CommonDtypeSymmetric` | src/shared.py:242 | The dtype of a stacked column does not depend on which frame comes first. |
| `TrainingData.JoinColumns` | src/shared.py:242 | A stacked column holds the top rows, then the bottom rows, with missing cells where a frame lacks the column. Its dtype is the promotion of its pieces' dtypes. |
| `TrainingData.NamesNotIn` | src/shared.py:242 | The names added by the second frame are exactly those the first frame lacks, in the second frame's order, each once when its names are distinct. |
| `TrainingData.Concat` | src/shared.py:240-242 | Stacking succeeds iff the headers are equal or neither repeats a name. The result has `rows(top) + rows(bottom)` rows, indexed from 0. The top's columns come first, followed by the bottom's new columns in the bottom's order. Every cell holds the top row, then the bottom row, and each column's dtype is the promotion of the dtypes its pieces carry. |
| `TrainingData.CombineX` | src/shared.py:240-246 | With both tables, `X_all` is the training table stacked above the validation table: their summed rows, training rows first, starting with the training columns. With only the training table it is that table; otherwise it is the validation table or `None`. |
| `TrainingData.CombinedColumnsFollowFeatures` | src/shared.py:231-246 | When both tables hold every feature of a distinct list, `X_all` exists and its columns are that list, in order. |
| `TrainingData.ReadIfExists` | src/shared.py:216-217 | A missing file gives no table. An existing file gives its parsed table, or `ReadFailed` when parsing raises. |
| `TrainingData.ToSeries` | src/shared.py:223-226 | A label table becomes its first column, keeping the index and the column name. A missing table stays `None`. A table without columns raises. |
| `TrainingData.LoadTrainingData` | src/shared.py:214-248 | Loading fails iff an existing file does not parse or a label file has no column. On success a slot is present iff its file exists. Each feature table is its file's table, projected when an expected list is given. Each label slot is its file's first column with that file's index and column name. `X_all` is the two stacked, or the one present. |
| `Labels.ToClassId` | src/shared.py:264 | Integers keep their value. Integer text (an optional sign, then digits) gives the integer it spells. Missing cells and any other text become class 0. |
| `Labels.ClassIds` | src/shared.py:264 | One class id per cell, in order. |
| `Labels.DecodeLabels` | src/shared.py:258-267 | `None` stays `None`. A missing encoder or any failure returns `y` itself. A success returns the encoder's labels for the coerced ids, one per row, on `y`'s index. |
| `Labels.ClassIdOfShownCell` | src/shared.py:264 | Coercing a cell's printed form gives the same class id as coercing the cell. |
| `Labels.DecodeInvertsTransform` | src/shared.py:265 | With a scikit-learn label encoder, decoding the transformed labels gives the labels back, row by row, on the same index. |
| `Labels.DecodedLabelsKeepFileIndex` | src/shared.py:223-226 | A loaded label series, decoded or handed back after a failure, has one value per row of its label file, on that file's index. |
| `Labels.UnseenClassKeepsSeries` | src/shared.py:263-267 | A single id the encoder never produced makes decoding fail, so the series comes back unchanged. |
| `Numerals.ParseShowRoundTrip` | src/shared.py:264 | The integer string `pd.to_numeric` reads back from any printed integer is that integer. |
| `Display.ReplaceSentinel` | src/shared.py:123 | `"nan"`, `"None"` and `"NULL"` become `"Unknown"`, which is no sentinel. Every other string is unchanged. |
| `Display.ForceToString` | src/shared.py:123 | The forced path gives a string column of the same length. No cell is a sentinel. A cell printing as a sentinel (a missing cell among them) becomes `"Unknown"`, and every other cell keeps its printed form. |
| `Display.ForceToStringIdempotent` | src/shared.py:123 | Forcing an already forced column changes nothing. |
| `Display.Sanitize` | src/shared.py:112-135 | Index and column names keep their order. A frame with a repeated column name comes back unchanged. Otherwise no object column is left. An object column becomes a string column if that cast succeeds, else a category, else the forced string column. float64/int64 columns keep their cells and are downcast to float32/int32 when that cast succeeds, unchanged when it fails. Other tags are untouched. |
| `Display.SanitizeIdempotent` | src/shared.py:112-135 | Converting an already converted frame changes nothing. |

## Left out

- Streamlit is not modelled, because it is UI rendering. This covers `set_page`, `inject_theme`, the CSS, `safe_dataframe_display`, `ui_toggle`, and the `st.error`/`st.warning` messages printed on a failed load.
- The `st.cache_resource`/`st.cache_data` memoisation is not modelled, because it is framework caching.
- joblib and `pd.read_csv` are opaque functions of `Disk`. The model and the encoder are type parameters. A pickled feature list is a sequence of cells.
- `Artifacts.LoadArtifacts`: a pickled feature object whose truth value raises (a pandas `Index`, a numpy array) would make `features or []` raise. Pickles are taken to hold lists.
- `Path.exists()` is taken not to raise. The pathlib `suffix` rule is the one CPython used through 3.13.
- `TrainingData.Project`: on a table that repeats a column name, `df[[...]]` selects every column of that name, and the model takes the first. `read_csv` renames repeated headers, so the tables the loader projects never repeat one.
- `TrainingData.Project`: the `try` around the projection (src/shared.py:232-238) is taken never to fire. Selecting existing columns does not raise.
- `TrainingData.CommonDtype`: pandas 2.x leaves pieces with no rows, or whose cells are all missing, out of the choice of dtype. The model lets every piece count, so a header-only `X_valid.csv` (object columns) stacked under an int64 `X_train` gives object where pandas keeps int64. That rule lives in pandas internals and differs between versions.
- `TrainingData.Concat`: the failure behind the `except` at src/shared.py:245 is modelled only for duplicate column names. Dtype promotion is modelled only for the dtypes `read_csv` produces (int64, float64, bool, object).
- `Labels.ToClassId`: `pd.to_numeric` is modelled for optionally signed decimal integers. It does not model floats, exponents, surrounding whitespace, booleans or the int64 range. Floating-point cells are outside the cell model.
- `Display.Sanitize`: the cells of the string and category casts are left as they were; only the dtype tag changes. pandas' `<NA>` and category codes are not modelled.
- Also on `Display.Sanitize`: the numeric effect of the float64→float32 and int64→int32 casts (rounding, 32-bit wrap-around) is not modelled, being floating-point and library behaviour.
- Also on `Display.Sanitize`: which of the string, category and forced casts succeeds depends on pandas internals, so it is a parameter. The outer `try` that returns the input unchanged is modelled only for its cause in the frames this loader builds: a repeated column name, which `Project` yields from a feature list with a repeat, makes `df_clean[col]` a frame without `dtype`.
- `deploy.py` and the page scripts (`src/app.py`, `src/pages/*`, `pages/*`) are not modelled. They are filesystem probing, printing and layout that only consume the loader outputs. The prediction invoker and its log live in a page script and are not part of this model.
