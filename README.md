# Prescription matcher — a Dafny model of its search and upload core

The system stores prescription records. Each record holds a medicine, a dosage, an inclusive age range, an inclusive weight range and the symptoms it treats. The system answers one question: which prescriptions apply to a patient of this age and weight with these symptoms? All of its logic is inside the two form handlers of `main.py`. This project pulls that logic out into Dafny over an in-memory record container.

- **Search** (`search_prescriptions`).
  - The age and the weight are converted. A failed conversion ends the request.
  - The symptoms field is split on commas. Each piece is stripped and case-folded, and empty pieces are kept.
  - Every stored record is scanned in order. Each match is projected into a result entry.
  - A record matches when the age is in its age range, the weight is in its weight range (both ends included) and some query token equals one of its case-folded symptoms.
- **Upload** (`upload_prescriptions`).
  - The form goes through fail-fast checks in a fixed order:
    1. medicine and dosage are not blank;
    2. the four conversions succeed;
    3. the age range is ordered;
    4. the weight range is ordered;
    5. at least one non-blank symptom is given.
  - Only after all checks pass is the container loaded, the new record appended and the container written back whole.

Modules:

- `Wrappers`: `Option` and `Result`.
- `Text`: ASCII `strip`, `lower` and `split`, with their algebra.
- `Tokens`: the two symptom tokenisers.
- `Records`: the prescription record and the invariant the upload path establishes for it.
- `Matching`: the match predicate, the specification function `MatchingResults` and the search loop `SearchRecords`, which is proved against it.
- `Upload`: the validator.
- `Stores`: the class `Store`, whose `records` field is the container. `Load` and `Save` read it and overwrite it whole, and `Search` and `Upload` are the two handlers.
- `Scenarios`: the worked examples of the system's documentation.

## Model

| member | source | states |
|---|---|---|
| Text.ToLower | main.py:43 | the result is never an upper-case letter; only an upper-case letter is changed; case folding preserves whitespace |
| Text.Lower | main.py:43 | same length, no upper-case letter left, each character folded on its own |
| Text.LowerAll | main.py:51 | one folded string per symptom, in order |
| Text.LowerKeepsStripped | main.py:43 | a string is stripped exactly when its folded form is |
| Text.LowerIdempotent | main.py:43 | folding twice is folding once |
| Text.TrimStart | main.py:43 | the result is a suffix of the input that does not start with whitespace |
| Text.TrimEnd | main.py:43 | the result is a prefix of the input that does not end with whitespace |
| Text.TrimStartSpaces | main.py:43 | only whitespace was removed from the front |
| Text.TrimEndSpaces | main.py:43 | only whitespace was removed from the back |
| Text.Strip | main.py:43 | the result is no longer than the input and neither starts nor ends with whitespace |
| Text.StripAll | main.py:43 | one stripped string per piece, in order |
| Text.StripIsSlice | main.py:43 | the result is a contiguous slice of the input with only whitespace cut on either side |
| Text.StripBlank | main.py:86-89 | stripping gives the empty string exactly when the input is all whitespace |
| Text.StripStripped | main.py:43 | stripping an already stripped string changes nothing |
| Text.StripLower | main.py:43 | stripping and case folding commute |
| Text.Split | main.py:43 | one more piece than there are commas, and no piece contains a comma |
| Text.SplitJoin | main.py:43 | joining the pieces with the separator gives back the input |
| Text.SplitNoSeparator | main.py:43 | a field with no comma is one piece |
| Text.SplitAfterPiece | main.py:43 | a comma-free piece followed by a comma is the first piece |
| Text.SplitUnique | main.py:43 | any comma-free cut that joins back to the input is the split |
| Text.SplitLower | main.py:43 | splitting on a non-letter commutes with case folding |
| Tokens.QueryTokens | main.py:43 | exactly one token per comma plus one, the k-th being the k-th piece stripped and folded |
| Tokens.QueryTokenNormal | main.py:43 | every query token is stripped and has no upper-case letter |
| Tokens.QueryTokensOfPiece | main.py:43 | tokens come in piece order, and a blank piece still yields an (empty) token |
| Tokens.QueryTokensIgnoreCase | main.py:43 | two fields equal up to case give the same tokens |
| Tokens.QueryTokensOfLower | main.py:43 | folding the field first changes no token |
| Tokens.NormaliseLowered | main.py:43 | folding the pieces before they are stripped and folded changes no token |
| Tokens.DropEmpty | main.py:103 | no empty string survives, and nothing survives exactly when every string is empty |
| Tokens.DropEmptyMember | main.py:103 | exactly the non-empty strings survive |
| Tokens.DropEmptyAppend | main.py:103 | the kept strings keep their relative order |
| Tokens.UploadTokens | main.py:103 | at most one token per piece, each non-empty and stripped |
| Tokens.UploadTokensMember | main.py:103 | a string is an upload token exactly when it is a non-blank piece stripped |
| Tokens.UploadTokensOfPiece | main.py:103 | tokens come in piece order, and a blank piece contributes nothing |
| Tokens.UploadTokensEmpty | main.py:103-105 | no token exactly when every piece is whitespace |
| Tokens.QueryTokensWithoutEmpty | main.py:103 | without its empty tokens, the query tokenisation (main.py line 43) is the folded upload tokenisation |
| Matching.Project | main.py:56-64 | the result entry loses nothing: the record it was built from can be read back from it, symptoms in their stored casing |
| Matching.SharesSymptom | main.py:51-55 | true exactly when some query token equals some record symptom case-folded |
| Matching.Matches | main.py:53-55 | a matching record has ordered ranges, and both the query and the record have at least one symptom |
| Matching.MatchingResults | main.py:46-64 | no more entries than records |
| Matching.SearchRecords | main.py:38-64 | the loop's results are exactly the specification's entries for the records scanned |
| Matching.MatchingResultsAppend | main.py:46-64 | results keep the store's order: the results of a concatenation are the results of the parts, concatenated |
| Matching.MatchingResultsMember | main.py:53-64 | an entry is in the results exactly when some stored record matches and projects to it |
| Matching.ResultsAreMatchingRecords | main.py:56-64 | each entry carries all fields of a matching record, the symptoms in their stored casing |
| Matching.MatchingResultsEmpty | main.py:66-68 | the results are empty exactly when no record matches |
| Matching.RangesInclusive | main.py:53-54 | both ends of both ranges match; one past either end of the age range and any weight outside the weight range do not |
| Matching.OneSharedSymptomSuffices | main.py:51-55 | a single query token equal to one case-folded symptom is enough for a match |
| Matching.MatchIgnoresRecordCase | main.py:51 | a record's symptoms matter only through their folded form |
| Matching.EmptyTokensIrrelevant | main.py:43-55 | the empty query tokens never decide a match against non-empty symptoms |
| Records.WellFormed | main.py:86-105 | a well-formed record's medicine, dosage and symptoms are left unchanged by stripping, and its medicine and dosage are not empty |
| Upload.Validate | main.py:86-105 | each error is reported exactly when every earlier check passed and that check fails; an accepted record is well-formed and holds the cleaned fields |
| Upload.AgeRangeReportedBeforeWeights | main.py:92-100 | an inverted age range is reported when both weights convert, whatever their order; otherwise the first weight that does not convert is reported instead |
| Stores.Store.constructor | main.py:11-14 | a container holding the given records |
| Stores.Store.Load | main.py:17-23 | returns the whole container |
| Stores.Store.Save | main.py:26-28 | the container becomes the given sequence |
| Stores.Store.Search | main.py:40-64 | an age that does not convert is reported first, then a weight; the search succeeds exactly when both convert, and then returns the matching entries of the stored records, in store order |
| Stores.Store.Upload | main.py:86-122 | the validator's verdict; a refusal leaves the container unchanged; an acceptance appends exactly that record; well-formedness of the container is preserved |
| Stores.SaveThenLoad | main.py:17-28 | loading after a save yields what was saved |
| Stores.AppendWellFormed | main.py:108-122 | appending a well-formed record keeps the container well-formed |
| Stores.SearchIgnoresQueryCase | main.py:43 | the casing of the query field does not change the results |
| Stores.SearchAfterUpload | main.py:108-122 | after an append, the results are the old results followed by the new record's entry if it matches |
| Stores.UploadedRecordFindable | main.py:103-122 | an accepted record is found again by a search (main.py lines 43-55) with the symptoms field it was uploaded with, at any age and weight in its ranges |
| Scenarios.QueryOneWord | main.py:43 | a single lower-case word is its own only token |
| Scenarios.QueryTwoWords | main.py:43 | "w1, w2" yields the tokens w1 and w2 |
| Scenarios.SingleRecord | main.py:46-64 | a one-record store yields that record's entry exactly when it matches |
| Scenarios.ParacetamolForHeadache | main.py:43-64 | age 30, weight 70 and "headache" find exactly the stored paracetamol record, symptoms in stored casing |
| Scenarios.SyrupAgeBounds | main.py:53 | ages 2 and 10 match a record for ages 2 to 10, ages 1 and 11 do not |
| Scenarios.CoughOrRashFindsSyrup | main.py:43-55 | "cough, rash" matches a record with symptoms Fever and Cough |
| Scenarios.RashOrHeadacheMissesSyrup | main.py:43-55 | "rash, headache" does not match that record |

The system's documentation gives a validation-order example: minimum age 10, maximum age 5 and invalid weights. It says the range-order error is reported. The code agrees when the weights convert but are out of order: the age check (main.py:97) runs before the weight check (main.py:99). It differs when a weight does not convert at all: all four conversions (main.py:92-95) run before either range check, so the conversion error of the first such weight is reported instead. The model follows the code. `Upload.AgeRangeReportedBeforeWeights` proves each case: the age-range error when both weights convert, the minimum weight's conversion error when it does not convert, and the maximum weight's when only it does not.

## Left out

- Flask routing, templates, redirects and flash messages (main.py:1-5, 31-34, 66-78, 123-138). The model returns typed outcomes instead of messages.
- File I/O and JSON. `load_prescriptions` and `save_prescriptions` become reading and overwriting the `records` field whole. The file bootstrap becomes the `Store` constructor.
- The `[DEBUG]` prints. They are diagnostic only.
- `int()` and `float()` parsing. Each handler receives the outcome of every conversion as an `Option`, `None` where Python raises `ValueError`. The rules of those parsers are not modelled.
- Weights are `real`. Floating-point rounding, NaN and infinities are not modelled; weights are only ever compared. One consequence is lost: `float("nan")` converts, and every comparison with NaN is false, so a NaN weight passes the check at main.py:99. The code can therefore store a record whose weight range is not ordered, and such a record never matches any search. `Records.WellFormed` and the ordered-range ensures of `Upload.Validate` hold only because the model has no NaN.
- `strip()` and `lower()` are modelled on ASCII. Whitespace is space, `\t`, `\n`, `\v`, `\f`, `\r` and the separators `\x1c`-`\x1f`. Only `A`-`Z` are folded. Other Unicode whitespace and case mappings are not modelled.
- A corrupt or malformed container. The model assumes the container parses and every stored record is well-typed, so the loads of main.py:19 and the per-record conversions of main.py:47-51 cannot fail. In the code, such failures reach different handlers:
  - Container contents that are not JSON raise `json.JSONDecodeError` in `load_prescriptions` (main.py:19). That is a `ValueError`, so the search and the upload both report it through their `except ValueError` handlers (main.py:70-72, 127-129) as an input error. An upload fails before its save, so the container is not changed.
  - A stored age or weight that is a non-numeric string raises `ValueError` at main.py:47-50. The search reports this through main.py:70-72. By then it has stopped part-way through the loop, and the partial results are still rendered (main.py:78).
  - A stored age or weight that is `null` or a list makes `int()`/`float()` raise `TypeError` at main.py:47-50. A stored record with a missing key raises `KeyError` at main.py:47-51, and non-string symptoms raise `AttributeError` at main.py:51. All three reach the search's generic `except Exception` handler (main.py:73-75), again with partial results.
  - The upload never reads the fields of a stored record. It only loads the list (main.py:108), appends to it (main.py:111) and saves it (main.py:122). So a well-formed JSON container holding such malformed records is saved back with them unchanged, and the upload succeeds.
- A missing form field. In Python this raises `KeyError`, which the catch-all handles. Every form in the model has all its fields.
- Concurrent uploads racing on the container. This is concurrency: the last save wins.
