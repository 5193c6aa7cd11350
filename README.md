# Fake-review detector core in Dafny

This project models two parts of a fake-review detector and proves properties about them.

**The Adaline learner (src/model.py).** `AdalineGD` is an Adaptive Linear Neuron trained by full-batch gradient descent on the mean squared error.
- `fit` starts from an initial weight vector and a bias of 0. It runs `n_iter` epochs. Each epoch computes the residuals `y - (X w + b)` from the current parameters, moves every weight and the bias along the averaged gradient, and appends that epoch's mean squared residual to `losses_`.
- `net_input` is the affine map `X w + b`.
- `activation` is the identity.
- `predict` labels a row 1 when its activation is at least 0.5, and 0 otherwise.

**The lexical feature extractors (src/features.py).** Each of the three extractors scans the `text_` column of a frame of reviews. It writes one integer per review into a new column of that same frame, then returns the frame.
- `count_sus_words` lower-cases the text and adds up the non-overlapping `str.count` occurrences of each keyword.
- `count_capital_words` counts the whitespace-separated words for which `str.isupper()` holds.
- `count_review_length` counts the whitespace-separated words.

Files:
- `results.dfy`, module `Results`: the `Result` datatype used for the error paths.
- `linear.dfy`, module `Linear`: exact real vectors and matrices. It covers the inner product, `X.T @ e`, column extraction, sum, mean and elementwise squares.
- `model.dfy`, module `Adaline`:
  - `Epoch` is one epoch as a function, and `Train` is `k` epochs.
  - The class `AdalineGD` has the fields `lr`, `nIter`, `randomState`, `w`, `b` and `losses`, plus `hasWeights`. `hasWeights` records whether `fit` has created `w_`, `b_` and `losses_`.
  - The imperative `Fit` loop is proved to reach exactly the state `Train` describes.
  - `NetInput`, `Activation` and `Predict` are functions that read the object.
- `text.dfy`, module `Text`: the Python string operations the extractors call.
  - `Lower` is `str.lower`.
  - `Count` is `str.count`, including the empty-substring case.
  - `Split` is `str.split()` with no separator, over the exact `str.isspace` set.
  - `IsUpper` is `str.isupper`.
- `features.dfy`, module `Features`:
  - the per-review values `SusCount`, `CapsCount` and `ReviewLength`;
  - the class `Frame`, whose fields are a row count and a map from column names to columns;
  - the per-review loops `SusCounts` and `CapsCounts`;
  - the three column methods, which update the frame in place.

## Model

| member | source | states |
|---|---|---|
| Adaline.AdalineGD.constructor | src/model.py:26-29 | stores `lr`, `n_iter` and `random_state` as given (defaults 0.01, 100, 1); no weights exist yet |
| Adaline.AdalineGD.Fit | src/model.py:31-66 | `fit` first resets the weights to the initial draw `w0`, the bias to 0 and the history to empty. With no epochs (`n_iter <= 0`) it returns the same object in that reset state. With mismatched lengths of `X` and `y` it fails with a shape error, and with zero rows it fails with no samples; both failures leave the reset state. Otherwise it returns the same object, whose weights, bias and history equal `Train` after exactly `n_iter` epochs: one weight per feature and `n_iter` recorded losses. `lr`, `n_iter` and `random_state` never change |
| Adaline.Epoch | src/model.py:54-63 | one epoch reads residuals `e = y - (X w + b)` from the pre-update parameters. It sets each weight to `w_j + lr*2*(column_j . e)/N` and the bias to `b + lr*2*(sum e)/N`, keeps the weight count, and records loss `mean(e^2) >= 0` |
| Adaline.Train | src/model.py:50-64 | after `k` epochs there are exactly `k` recorded losses, every one non-negative, and the weight count equals the feature count |
| Adaline.TrainAppendOnly | src/model.py:64 | the loss history only grows by appending: the history after `j` epochs is the first `j` entries of the history after `k >= j` epochs |
| Adaline.ZeroResidualEpoch | src/model.py:54-64 | an epoch whose residuals are all zero leaves `w_` and `b_` unchanged and records loss 0 |
| Adaline.ExactFitResiduals | src/model.py:54-56 | parameters that reproduce every target exactly give all-zero residuals |
| Adaline.TrainAtExactFit | src/model.py:48-64 | when the initial weights with bias 0 already fit every target, every epoch keeps them and records loss 0 |
| Adaline.AdalineGD.NetInput | src/model.py:81 | row `i` of the net input is `X[i] . w_ + b_`, one entry per row. It fails with not-fitted before `fit` and with a shape error on a width mismatch. It changes nothing |
| Adaline.AdalineGD.Activation | src/model.py:97 | the linear activation returns its argument unchanged |
| Adaline.AdalineGD.Predict | src/model.py:99-112 | there is one label per row, each label is 0 or 1, and it is 1 exactly when `X[i] . w_ + b_ >= 0.5`. It fails exactly when `net_input` fails, with the same error. It changes nothing |
| Linear.TransposeTimes | src/model.py:59 | `X.T @ errors` has one entry per feature |
| Linear.TransposeTimesColumns | src/model.py:59 | entry `j` of `X.T @ e` is the inner product of column `j` of `X` with `e` |
| Linear.MeanSquaresNonNegative | src/model.py:63 | the mean of squared residuals is non-negative |
| Linear.SumNonNegative | src/model.py:63 | a sum of non-negative terms is non-negative |
| Linear.SumZeros | src/model.py:60 | the residuals of an exact fit sum to 0, so the bias step is 0 |
| Linear.DotZeros | src/model.py:59 | a column times all-zero residuals is 0, so the weight step is 0 |
| Text.Lower | src/features.py:20 | `lower()` keeps the length, maps each character by its case, and leaves no upper-case letter |
| Text.LowerIdempotent | src/features.py:20 | lower-casing twice equals lower-casing once |
| Text.Count | src/features.py:21 | the empty keyword is found `len + 1` times |
| Text.CountBound | src/features.py:21 | a non-empty keyword's occurrences do not overlap: `count * len(word) <= len(text)` |
| Text.OccursAfterFirst | src/features.py:21 | dropping the first character of the text moves every occurrence one position to the left |
| Text.CountFindsOccurrence | src/features.py:21 | a non-empty keyword is counted at least once exactly when it occurs somewhere in the text |
| Text.CountLeftmost | src/features.py:21 | when `p` is the leftmost position where a non-empty keyword occurs, the count is one plus the count in the text after that match; with `CountFindsOccurrence`, this makes the count the number of leftmost non-overlapping matches |
| Text.CountAtMatch | src/features.py:21 | a match at the front is counted and the search resumes right after it |
| Text.LeftmostAfterFirst | src/features.py:21 | when the text does not begin with a match, dropping its first character keeps the leftmost match leftmost, one position earlier |
| Text.CountPastMismatch | src/features.py:21 | a first character that begins no match is passed over, so the count of the text is the count of the rest |
| Text.CountShortText | src/features.py:21 | a text shorter than a non-empty keyword scores 0 |
| Text.SkipSpace | src/features.py:38 | `split()` skips whitespace up to the first non-whitespace character at or after the position, or to the end |
| Text.SkipWord | src/features.py:38 | a word of `split()` ends at the first whitespace character at or after the position, or at the end |
| Text.SkipSpaceSpans | src/features.py:38 | everything skipped before a word is whitespace |
| Text.SkipWordSpans | src/features.py:38 | everything taken into a word is non-whitespace |
| Text.SplitFromWords | src/features.py:38 | every word from a position on is non-empty and contains no whitespace |
| Text.Split | src/features.py:53 | `split()` yields only non-empty words without whitespace |
| Text.NoRunStartsBetween | src/features.py:53 | positions that begin no run contribute no words |
| Text.SpaceHasNoRuns | src/features.py:53 | whitespace begins no word |
| Text.WordIsOneRun | src/features.py:53 | a maximal non-whitespace stretch is exactly one run |
| Text.SplitFromCountsRuns | src/features.py:53 | from a word boundary, `split()` yields one word per run of non-whitespace |
| Text.SplitCountsRuns | src/features.py:53 | `len(text.split())` equals the number of maximal runs of non-whitespace characters |
| Text.NonSpaceSkipsSpaces | src/features.py:53 | whitespace contributes no characters to the words |
| Text.NonSpaceKeepsWord | src/features.py:53 | a non-whitespace stretch contributes all its characters, in order |
| Text.SplitFromKeepsCharacters | src/features.py:53 | the words from a position on, joined, are exactly the non-whitespace characters from there on |
| Text.SplitKeepsCharacters | src/features.py:53 | `"".join(text.split())` is the text with every whitespace character removed, in order |
| Text.SkipSpaceAt | src/features.py:53 | the end of a stretch of whitespace is the one position where the stretch stops |
| Text.SkipWordAt | src/features.py:53 | the end of a word is the one position where the non-whitespace stretch stops |
| Text.SkipSpaceShift | src/features.py:53 | skipping whitespace inside the tail of a text stops at the same place as in the tail alone, shifted by the length of the head |
| Text.SkipWordShift | src/features.py:53 | a word inside the tail of a text ends at the same place as in the tail alone, shifted by the length of the head |
| Text.SameFirstWord | src/features.py:53 | two scans whose first words have the same text and whose remaining words agree find the same words |
| Text.SuffixFirstWord | src/features.py:53 | a scan inside the tail of a text finds the same first word as the scan of the tail alone, and so the same words when the rest agrees |
| Text.SplitFromSuffix | src/features.py:53 | scanning a text from inside its tail finds the same words as scanning that tail alone |
| Text.SkipSpacePrefix | src/features.py:53 | before a whitespace character, skipping whitespace stops inside the head where it would in the head alone, and otherwise runs past that character |
| Text.SkipWordPrefix | src/features.py:53 | a word of the head ends at the same place when a whitespace character follows the head |
| Text.SplitFromPrefix | src/features.py:53 | before a whitespace character, the words found are those of the part before it, followed by those after it |
| Text.SplitSeparated | src/features.py:53 | a whitespace character separates words: `(a + c + b).split() == a.split() + b.split()` |
| Text.SplitOneWord | src/features.py:53 | a non-empty text without whitespace splits into exactly itself; with `SplitSeparated` and `SplitBlank` this fixes every word boundary of `split()` |
| Text.SplitBlank | src/features.py:53 | an empty or all-whitespace text has no words |
| Text.UpperScan | src/features.py:38 | the scan is true exactly when it saw, or finds, an upper-case letter and finds no lower-case one |
| Text.IsUpper | src/features.py:38 | `isupper()` holds exactly when the word has an upper-case letter and no lower-case letter |
| Features.Hits | src/features.py:21 | an empty keyword list scores 0, a one-keyword list scores that keyword's `count`, and each keyword's count is at most the total; with `HitsAppend` the total is the sum of the counts |
| Features.HitsAppend | src/features.py:21 | the sum of counts is additive over concatenated keyword lists |
| Features.SusCountAppend | src/features.py:20-21 | the `count_sus` value for keywords `l1 + l2` is the value for `l1` plus the value for `l2` |
| Features.SusCountCaseInsensitive | src/features.py:20-21 | texts that are equal after lower-casing get the same `count_sus` value |
| Features.SusCountOneWordBound | src/features.py:20-21 | the occurrences of one non-empty keyword, times its length, fit in the text |
| Features.UpperCaseKeywordNeverFound | src/features.py:20-21 | a keyword with an upper-case letter is never found, because only the text is lower-cased |
| Features.SusCount | src/features.py:20-21 | the `count_sus` value of one review: 0 for no keywords, the `count` in the lower-cased text for one keyword, and never less than any single keyword's count |
| Features.ReviewLength | src/features.py:53 | the `len_reviews` value of one review is the number of maximal runs of non-whitespace characters |
| Features.ReviewLengthSeparated | src/features.py:53 | texts joined by a whitespace character have the sum of their lengths |
| Features.ReviewLengthBlank | src/features.py:53 | an empty or all-whitespace review has length 0 |
| Features.UpperWords | src/features.py:38 | the comprehension keeps no more words than it got |
| Features.UpperWordsCounts | src/features.py:38 | the comprehension keeps every upper-case word as many times as it occurs, and no other word |
| Features.UpperWordsAll | src/features.py:38 | every word is kept exactly when every word is upper case |
| Features.UpperWordsNone | src/features.py:38 | no word is kept exactly when no word is upper case |
| Features.UpperWordsAppend | src/features.py:38 | filtering concatenated word lists concatenates the filtered lists, keeping the order |
| Features.CapsCount | src/features.py:38 | the `count_caps` value of one review is never larger than its `len_reviews` value |
| Features.CapsCountZero | src/features.py:38 | a review scores 0 exactly when none of its words is upper case |
| Features.CapsCountAll | src/features.py:38 | a review's `count_caps` equals its `len_reviews` exactly when every word is upper case |
| Features.CapsCountSeparated | src/features.py:38 | texts joined by a whitespace character have the sum of their upper-case word counts |
| Features.CapsCountOneWord | src/features.py:38 | a one-word review scores 1 exactly when that word is upper case, otherwise 0 |
| Features.CapsSkipsUncasedWords | src/features.py:38 | a word with no upper-case letter, such as digits or punctuation, is not counted |
| Features.Frame.constructor | src/features.py:12 | a frame holds named columns, each with one value per row |
| Features.Frame.ReviewTexts | src/features.py:19 | iterating `reviews['text_']` raises KeyError when the column is missing, and otherwise yields one text per row. An empty column yields no texts and no error. A non-text cell gives an attribute error |
| Features.SusCounts | src/features.py:18-22 | the loop yields one count per review, in review order: keyword occurrences in the lower-cased text |
| Features.CapsCounts | src/features.py:36-39 | the loop yields one count per review, in review order: its upper-case words |
| Features.CountSusWords | src/features.py:7-24 | `count_sus` gets one value per review in order. Only that column is added or overwritten, `text_` and every other column are unchanged, and the result is the same frame. Errors leave the frame unchanged |
| Features.CountCapitalWords | src/features.py:26-41 | `count_caps` gets one value per review in order. Only that column is added or overwritten, and the result is the same frame. Errors leave the frame unchanged |
| Features.CountReviewLength | src/features.py:43-55 | `len_reviews` gets one value per review in order. Only that column is added or overwritten, and the result is the same frame. Errors leave the frame unchanged |

## Left out

- `np.random.RandomState(random_state).normal(...)` (src/model.py:47-48): the initial weights are the parameter `w0` of `Fit`, and `Fit` requires one weight per column. The seed is only stored.
- Floating point: all arithmetic is exact `real`, so nothing is claimed about rounding, convergence or the loss decreasing.
- Adaline.AdalineGD.Fit: with zero rows and at least one epoch, NumPy divides by zero and carries NaN weights and losses without raising. The model has no NaN, so it reports `NoSamples` and keeps the reset state.
- Adaline.AdalineGD.Fit: NumPy broadcasting of a length-1 `y` against many rows is refused as a shape mismatch, like every other length difference.
- Adaline.AdalineGD.Fit: a feature matrix whose rows differ in width, which NumPy refuses when it builds the array, is excluded by the `Rectangular` requirement.
- Text.Lower and Text.IsUpper: only ASCII letters are cased; every other character is treated as caseless. Cased non-ASCII letters are therefore not modelled: `"ÉÉ".isupper()` is true in Python but false here, `"Aé".isupper()` is false in Python but true here, and the Kelvin sign U+212A, which Python lower-cases to `k`, is left unchanged here.
- Features.Frame.ReviewTexts: cells of `text_` are either all strings or all integers. Mixed columns, NaN cells and pandas' dtype handling are not modelled. Column order is not modelled either, because the frame is a map.
- src/main.py (CSV loading, StandardScaler, joblib persistence) and website/website.py (the Streamlit page) are not part of this model; they are I/O and UI.
- The `predict` docstring (src/model.py:101) speaks of a unit step. The code thresholds the linear activation at 0.5 (src/model.py:112), and the model follows the code.
- `fit` gives no guarantee of leaving the old weights in place on failure. It resets the weights, bias and history (src/model.py:48-50) before the first epoch can raise a shape error, and the model keeps that reset state on every error path.
- Adaline.AdalineGD.NetInput: a matrix with no rows carries no width in the model, so `NetInput` and `Predict` return an empty result for it. NumPy raises a shape error for a `(0, G)` array whose `G` differs from `len(w_)`.
- Calling `predict` or `net_input` before `fit` reads attributes that do not exist yet, which raises an attribute error. The model reports this as `NotFitted`.
