# Car price preprocessing and prediction post-processing, in Dafny

This project models the cleaning stage of a used-car price predictor and proves its properties. The stage sits between raw car records and a trained regression pipeline. It has three steps:

- **Categorical cleanup.** Each text column is stripped, reduced to ASCII letters and whitespace, and title-cased. A few known spellings are corrected. Each value is then fuzzy-matched against a fixed vocabulary for its column, with `"Other"` as the fallback.
- **Numerical cleanup.** `Year`, `Mileage` and `Engine Size` values outside their plausible ranges become missing.
- **Engineered features.** `Car Age` replaces `Year`, and `Log Mileage` replaces `Mileage`.

It also models the post-processing of a price request. Anything but a non-empty list of cars is rejected, and negative predictions are clamped to zero.

The project has four modules:

- `Frames` (`frames.dfy`): the data model. A frame is a batch of records stored column by column. Each column is a named `Series` of cells, and a cell is text, a number, or `Absent`, the missing-value marker. The module also has the column operations the stages use: lookup, assignment, drop, and replace-and-drop.
- `Text` (`text.dfy`): the string operations. These are strip, the `[^a-zA-Z\s]` filter, title casing, and code-point order.
- `Preprocessing` (`preprocessing.dfy`): the vocabulary, the three stages, and their properties.
- `Predict` (`predict.dfy`): the request guard and the clamp.

Each stage works on a copy of its input, so the caller's frame never changes. In the model, frames are values, which gives the same guarantee.

Parameters:

- The categorical and numerical cleanups are methods that loop over columns and rows. The feature step is a method that assigns and drops columns, with no loop. Each method is proved equal to a specification function or to per-column specifications.
- The clock (`pd.Timestamp.now().year`) is the parameter `currentYear`.
- `np.log1p` is the parameter `log1p`.
- The similarity ratio of `difflib` is the parameter `sim`. The properties assume only `IsRatio`: every ratio lies in [0, 1], and a ratio is 1 exactly for identical strings.
- The trained pipeline's `predict` is the parameter `model`.

In three places the code behaves differently from what its names suggest. The model follows the code:

- **Ties between vocabulary entries.** `get_close_matches` ranks candidates by the pair (score, candidate). Among equally similar entries, the code-point-greatest string wins, not the first in vocabulary order. `Preprocessing.Outranks` states this rule.
- **Text columns without a vocabulary.** They are not left untouched. In the code, `map_value` looks up `allowed_categories[col]` for every present value, so such a column raises `KeyError` as soon as one of its values is present after step 1. As the code is written, step 1 turns a missing cell into the present value "Nan" (see Findings), so a column without a vocabulary passes only when every cell cleans to the empty string. With step 1 corrected, an all-missing column also passes. `Preprocessing.CleanSeriesCells` and `Preprocessing.CleanFrameFacts` state the error.
- **Numbers sent as text.** Not every numerical value is coerced to a number. The code coerces only columns that already have a numeric dtype (lines 50-51). A `Year`, `Mileage` or `Engine Size` column that holds text stays text, and its range comparison raises `TypeError`. `Preprocessing.Sanitize` models that error, and `Preprocessing.TextYearRaises` exhibits it.

## Model

| member | source | states |
|---|---|---|
| Preprocessing.FallbackOutsideVocabulary | car_price_prediction_ml/src/preprocessing.py:6-11 | the fallback "Other" is not an entry of any column's vocabulary, so a fallback can be told apart from a match |
| Text.Strip | car_price_prediction_ml/src/preprocessing.py:23 | the result is an infix of the input: only whitespace is cut, and only from either end; it has no whitespace at either end |
| Text.KeepLettersAndSpaces | car_price_prediction_ml/src/preprocessing.py:24 | every character left is an ASCII letter or whitespace; a string made only of such characters is unchanged; a string with none of them becomes empty |
| Text.Title | car_price_prediction_ml/src/preprocessing.py:25 | same length; each letter is upper-cased unless it follows a letter, in which case it is lower-cased; every other character is unchanged |
| Text.TitleKeepsClasses | car_price_prediction_ml/src/preprocessing.py:24-25 | title casing keeps each character's class, so nothing the filter removed comes back |
| Text.TitleIdempotent | car_price_prediction_ml/src/preprocessing.py:25 | title casing a title-cased string changes nothing |
| Text.BelowTotal | car_price_prediction_ml/src/preprocessing.py:39 | code-point order between two distinct strings always decides one way, so the matcher's ranking has no unresolved ties |
| Preprocessing.CleanText | car_price_prediction_ml/src/preprocessing.py:22-26 | a value is missing after step 1 exactly when stripping and filtering leave nothing; a present result is non-empty, only ASCII letters and whitespace, and no longer than the input |
| Preprocessing.BasicClean | car_price_prediction_ml/src/preprocessing.py:20-27 | a missing cell stays missing; a present result comes from a present cell and holds only ASCII letters and whitespace |
| Preprocessing.BasicCleanAsWritten | car_price_prediction_ml/src/preprocessing.py:20-27 | agrees with the corrected step 1 on text cells, but turns a missing cell into a present one |
| Preprocessing.Correct | car_price_prediction_ml/src/preprocessing.py:29-33 | exactly three values change: `Model` "Cclass" becomes "C-Class", `Model` "I" becomes "360I", and `Make` "Bmw" becomes "BMW"; each result is an entry of its column's vocabulary, and missingness is preserved |
| Preprocessing.BestMatch | car_price_prediction_ml/src/preprocessing.py:39 | a returned entry reaches the threshold and outranks every other entry that does; nothing is returned exactly when no entry reaches 0.8 |
| Preprocessing.BestMatchOfEntry | car_price_prediction_ml/src/preprocessing.py:39 | an entry of the vocabulary is its own best match |
| Preprocessing.MapValue | car_price_prediction_ml/src/preprocessing.py:36-40 | a missing value stays missing; a present value in a column without a vocabulary raises `KeyError`; otherwise the result is the best match, or "Other" exactly when no entry reaches the threshold |
| Preprocessing.CleanCell | car_price_prediction_ml/src/preprocessing.py:20-42 | the cleanup of one cell fails exactly when the column has no vocabulary and step 1 leaves a present value |
| Preprocessing.CleanCellAsWritten | car_price_prediction_ml/src/preprocessing.py:20-42 | as written, a missing cell becomes a present value in a vocabulary column and raises in any other text column |
| Preprocessing.CleanCells | car_price_prediction_ml/src/preprocessing.py:36-42 | the error of a failing column is `KeyError` naming that column; a cleaned column has one cell per input cell |
| Preprocessing.CleanSeries | car_price_prediction_ml/src/preprocessing.py:20-42 | a failing column raises `KeyError` naming that column; a cleaned column keeps its name, kind and length |
| Preprocessing.CleanSeriesCells | car_price_prediction_ml/src/preprocessing.py:20-42 | a column fails exactly when it has no vocabulary and some cell is present after step 1; otherwise each cell is the cleanup of the cell in the same row, and no cell is a number |
| Preprocessing.LeadingSpaceSurvives | car_price_prediction_ml/src/preprocessing.py:23-24 | "# Ford" becomes " Ford": whitespace freed by the filter stays at the front because stripping came first |
| Preprocessing.EmptyBecomesAbsent | car_price_prediction_ml/src/preprocessing.py:26-38 | a value that strips and filters to nothing ends up missing, never "Other", in every column |
| Preprocessing.CleanedCellInVocabulary | car_price_prediction_ml/src/preprocessing.py:39-40 | after a successful cleanup a cell is missing, an entry of its column's vocabulary, or "Other" |
| Preprocessing.CclassReachesVocabulary | car_price_prediction_ml/src/preprocessing.py:29-31 | a `Model` value "cclass" comes out as the vocabulary entry "C-Class", whatever the ratio |
| Preprocessing.LowerIReachesVocabulary | car_price_prediction_ml/src/preprocessing.py:29-31 | a `Model` value "i" comes out as the vocabulary entry "360I", whatever the ratio |
| Preprocessing.BmwReachesVocabulary | car_price_prediction_ml/src/preprocessing.py:32-33 | a `Make` value "bmw" comes out as the vocabulary entry "BMW", whatever the ratio |
| Preprocessing.EntrySurvivesStepOne | car_price_prediction_ml/src/preprocessing.py:20-33 | steps 1 and 2 map every vocabulary entry to itself, "BMW", "C-Class" and "360I" through the corrections |
| Preprocessing.VocabularyIsFixed | car_price_prediction_ml/src/preprocessing.py:6-42 | every vocabulary entry comes through the whole categorical cleanup of its own column unchanged |
| Preprocessing.MissingTextCellAsWritten | car_price_prediction_ml/src/preprocessing.py:20-38 | as written, a missing text cell leaves step 1 as "Nan"; it is matched in a vocabulary column and raises `KeyError` in any other text column |
| Preprocessing.MissingTextCellStaysMissing | car_price_prediction_ml/src/preprocessing.py:36-38 | with step 1 corrected, a missing cell stays missing through the whole cleanup in every column |
| Frames.CollectOk | car_price_prediction_ml/src/preprocessing.py:18-44 | a loop that stops at the first error succeeds exactly when every step does, and then yields each step's value in order |
| Frames.CollectErr | car_price_prediction_ml/src/preprocessing.py:18-44 | a loop that stops at the first error fails with the error of the first failing step, after only successful steps |
| Frames.CollectErrSticks | car_price_prediction_ml/src/preprocessing.py:18-44 | once a prefix of the steps fails, the whole loop fails with that error |
| Preprocessing.CleanFrameFacts | car_price_prediction_ml/src/preprocessing.py:15-44 | the cleanup succeeds exactly when every text column cleans; on failure, the error is that of the first failing text column; on success, numeric columns are unchanged, each text column is its cleaned form, and the frame keeps its height, order and well-formedness |
| Preprocessing.CleanCategorical | car_price_prediction_ml/src/preprocessing.py:15-44 | the loop over the columns, cleaning text columns in place and returning at the first error, computes exactly `CleanFrame`, whose properties `CleanFrameFacts` states |
| Preprocessing.KeepInRange | car_price_prediction_ml/src/preprocessing.py:55-61 | a number outside [lo, hi] becomes missing; a number inside it and a missing cell are unchanged; it is never applied to text, because text raises first |
| Preprocessing.SanitizeCell | car_price_prediction_ml/src/preprocessing.py:53-61 | a cell of a column without a range is unchanged; a cell of a ranged column, which holds no text, is unchanged or missing |
| Preprocessing.SanitizeSeries | car_price_prediction_ml/src/preprocessing.py:53-61 | name, kind and length are kept, and each cell is the numerical cleanup of the cell in the same row; a column without a range is unchanged |
| Preprocessing.ClearRanges | car_price_prediction_ml/src/preprocessing.py:53-63 | when no check raises, every cell of every column is the numerical cleanup of the cell in the same place, so only out-of-range `Year`, `Mileage` and `Engine Size` values become missing; the frame stays well formed with the same shape, names and kinds, and every other column, `Price` included, is unchanged |
| Preprocessing.Sanitize | car_price_prediction_ml/src/preprocessing.py:48-63 | raises `TypeError` exactly when `Year`, `Mileage` or `Engine Size` holds a text value, naming the first of them in that order; otherwise it returns the frame of `ClearRanges` |
| Preprocessing.TextYearRaises | car_price_prediction_ml/src/preprocessing.py:50-55 | a one-record frame whose `Year` is the text "2018" raises `TypeError` on `Year`: coercion skips text columns, and comparing text with 1925 fails |
| Preprocessing.YearRange | car_price_prediction_ml/src/preprocessing.py:53-55 | `Year` becomes missing exactly outside [1925, current year], both ends included |
| Preprocessing.MileageRange | car_price_prediction_ml/src/preprocessing.py:57-58 | `Mileage` becomes missing exactly below 0 or above 600000 |
| Preprocessing.EngineSizeRange | car_price_prediction_ml/src/preprocessing.py:60-61 | `Engine Size` becomes missing exactly below 0 or above 6 |
| Preprocessing.SanitizeKeepsAbsent | car_price_prediction_ml/src/preprocessing.py:55-61 | a missing value stays missing in every column |
| Preprocessing.SanitizeIdempotent | car_price_prediction_ml/src/preprocessing.py:48-63 | cleaning a successfully cleaned frame succeeds again and gives the same frame |
| Preprocessing.ClearOutOfRange | car_price_prediction_ml/src/preprocessing.py:55-61 | the masked assignment over a column raises `TypeError` naming the column exactly when a cell is text; otherwise it clears exactly the out-of-range numbers and keeps the length |
| Preprocessing.CleanColumn | car_price_prediction_ml/src/preprocessing.py:53-61 | one range check, applied when the frame has the column, raises exactly when that column holds text; otherwise it adds the column to the cleaned set and leaves the others as they were |
| Preprocessing.CleanNumerical | car_price_prediction_ml/src/preprocessing.py:48-63 | the three range checks in turn, returning at the first `TypeError`, compute exactly `Sanitize` |
| Preprocessing.CarAge | car_price_prediction_ml/src/preprocessing.py:71 | `Car Age` is current year minus `Year` row by row, and missing exactly where `Year` is |
| Preprocessing.LogMileage | car_price_prediction_ml/src/preprocessing.py:75 | `Log Mileage` is `log1p` of `Mileage` row by row, and missing where `Mileage` is missing or below -1 |
| Preprocessing.CarAgeAfterCleaning | car_price_prediction_ml/src/preprocessing.py:53-71 | after the numerical cleanup every present car age lies in [0, current year - 1925] |
| Preprocessing.TypedAllowsUnreadText | car_price_prediction_ml/src/preprocessing.py:67-78 | the feature step accepts a `Year` column left all missing and a text column it never reads, such as `Price` |
| Preprocessing.AddCarAge | car_price_prediction_ml/src/preprocessing.py:69-72 | when `Year` exists, `Car Age` is derived from it and `Year` is gone; otherwise the columns are unchanged; no other column changes |
| Preprocessing.AddLogMileage | car_price_prediction_ml/src/preprocessing.py:74-76 | when `Mileage` exists, `Log Mileage` is derived from it and `Mileage` is gone; otherwise the columns are unchanged; no other column changes |
| Preprocessing.EngineeredFeatures | car_price_prediction_ml/src/preprocessing.py:67-78 | `Year` and `Mileage` are gone, `Car Age` and `Log Mileage` are derived when their sources exist, a skipped step leaves its target column as it was, and every other column keeps its contents and relative order |
| Frames.Assign | car_price_prediction_ml/src/preprocessing.py:71 | assigning a column overwrites the column of that name in its place, leaving every other column as it was, or appends it at the end when the name is new; the names grow by exactly that name |
| Preprocessing.MissingTextMileageNotTyped | car_price_prediction_ml/src/preprocessing.py:74-75 | a one-row `Mileage` column of the object kind is refused by the feature step even when its cell is missing, since `np.log1p` raises on it |
| Frames.Without | car_price_prediction_ml/src/preprocessing.py:72 | dropping keeps exactly the columns whose names are not dropped, in order |
| Frames.Replace | car_price_prediction_ml/src/preprocessing.py:71-72 | deriving a column and dropping its source changes the names by exactly those two and leaves every other column as it was |
| Predict.ClampOne | car_price_prediction_ml/src/predict.py:23 | the clamped price is non-negative, at least the prediction, and either the prediction or zero |
| Predict.Clamp | car_price_prediction_ml/src/predict.py:22-23 | one price per prediction, in order, each non-negative and the clamp of its own prediction |
| Predict.PredictPrices | car_price_prediction_ml/src/predict.py:13-23 | raises `ValueError` exactly when the request is not a non-empty list; otherwise one non-negative price per model prediction |
| Predict.ClampPointwise | car_price_prediction_ml/src/predict.py:23 | a non-negative prediction is returned unchanged and a negative one becomes exactly 0.0 |
| Predict.ClampKeepsPrices | car_price_prediction_ml/src/predict.py:23 | predictions that are all non-negative pass through unchanged |
| Predict.ClampIdempotent | car_price_prediction_ml/src/predict.py:23 | clamping twice is clamping once |
| Predict.ClampAppend | car_price_prediction_ml/src/predict.py:23 | the clamp works element by element, so each car's price depends only on its own prediction |
| Predict.NonRecordsPass | car_price_prediction_ml/src/predict.py:14-15 | the guard checks only for a non-empty list, so a list holding no car record at all is accepted |
| Predict.AcceptedRequest | car_price_prediction_ml/src/predict.py:14-23 | an accepted request yields exactly the clamped predictions, which equal the model's wherever the model predicts a non-negative price |

## Left out

- `load_model`, `joblib.load` and `MODEL_PATH` are file I/O. The trained pipeline is a foreign, opaque object, so `model.predict` is the parameter `model`. The model does not build the frame `pd.DataFrame(cars)`; `model` receives the list elements directly.
- `SequenceMatcher.ratio` and the internals of `get_close_matches` are a library algorithm. The ratio is the parameter `sim`, and only the facts in `IsRatio` are assumed. The tie rule is stated as the code applies it.
- `pd.Timestamp.now().year` reads the clock and is the parameter `currentYear`.
- Floating point is not modelled. Numbers are exact reals, and `np.log1p` is the parameter `log1p`.
- Preprocessing.LogMileage: returns a missing value below -1, where `np.log1p` gives NaN. It does not model the value -infinity at exactly -1. After the numerical cleanup, neither case can occur.
- Predict.Clamp: does not model NaN predictions, which `np.maximum` propagates.
- The dtype selection (`select_dtypes`) is modelled by each column's `Kind`: `Text` for object columns, `Numeric` for integer and float columns. A column mixing numbers and text is not modelled, and text cells of a text column are strings. `pd.to_numeric(errors='coerce')` does nothing on a column already of numeric dtype, so it is not modelled.
- Preprocessing.EngineeredFeatures: requires `Preprocessing.Typed`. It says that the `Year` column holds no text value, and that a non-empty `Mileage` column has a numeric kind. Missing `Year` cells are allowed, and other columns may hold anything. The source raises `TypeError` in the subtraction on a text `Year` value. It also raises in `np.log1p` on a non-empty `Mileage` column of the object kind, even one whose cells are all missing. The feature step does not model either error. The numerical cleanup models the text-value error, in `Preprocessing.Sanitize`.
- Preprocessing.CleanCell: uses the corrected step 1 of the Findings row, `BasicClean`, so a missing cell stays missing. `Preprocessing.CleanCellAsWritten` and `Preprocessing.MissingTextCellAsWritten` model the step as written.
- Preprocessing.CleanSeriesCells: states the cleanup over the corrected step 1. As written, a missing cell also raises in a column without a vocabulary.
- Preprocessing.CleanFrameFacts: states the cleanup over the corrected step 1, as `CleanCells`, `CleanSeries` and `CleanFrame` compute it. As written, a missing text cell comes out as a vocabulary entry or "Other", or raises `KeyError`.
- Preprocessing.CleanCategorical: computes `CleanFrame`, which uses the corrected step 1.
- Predict.PredictPrices: what the pipeline does with list elements that are not records is left to the parameter `model`; the model does not build `pd.DataFrame(cars)`.
- `str.title` is modelled on ASCII letters only. After the filter, those are the only cased characters left, so nothing is lost.
- Preprocessing.BasicCleanAsWritten: models only NaN, the marker a missing key produces. NaN converts to "nan". `None` would convert to "None" and `pd.NA` to "<NA>"; both also come out present.
- The demo script `test_predict.py` prints results and has no logic of its own.

## Findings

| source | as written | input that shows it | evidently intended | confidence | as-written member | corrected member |
|---|---|---|---|---|---|---|
| car_price_prediction_ml/src/preprocessing.py:22 | `astype(str)` runs before the missing check, so a missing text value becomes the text "nan" and leaves step 1 as the present value "Nan" | a record without a `Fuel Type` key: the cell becomes "Nan" and is matched against the vocabulary, so it ends as an entry or as "Other"; in a text column without a vocabulary it raises `KeyError` | a missing value stays missing and reaches the pipeline's imputer (the comment at line 38) | high for the conversion, medium for its effect on predictions; not executed | Preprocessing.MissingTextCellAsWritten | Preprocessing.MissingTextCellStaysMissing |
