# VacSmart input preparation, modelled in Dafny

VacSmart is a one-page form that predicts how likely a person is to take the
H1N1 and the seasonal flu vaccine. It uses two pre-trained classifiers. This
project models the one piece of logic between the form and the classifiers:
it turns the form's selections into the single row the classifiers consume.
It also models the small feedback flag of the FAQ tab.

The preparation has three stages, each in its own module:

- `Assembler` builds the record of 23 scalar fields from the form. There are
  two sliders bounded 0..3 (the subset type `Level`) and five checkboxes
  turned into 0/1. Every other field gets a constant default: the seven
  behavioural flags, `child_under_6_months` and the two household counts are
  0, and the six opinion fields are 3.
- `OneHot` appends, for `age_group`, `education`, `race` and `sex` in that
  order, one indicator column named `{field}_{value}` holding 1. A selection
  can also be the dataset's missing value (`Choice.Missing`). For it no
  column is emitted, because one-hot encoding a missing value yields no
  column.
- `Aligner` reindexes the candidate onto the classifier's ordered list of
  feature names. The list is a parameter, since it comes from the classifier
  object. `AlignColumns` is the page's alignment loop: it starts from zeros
  and copies every candidate column whose name is expected. `Align` is the
  declarative reference the loop is proved equal to.

`Pipeline` composes the three stages and states the end-to-end properties.
`Frame` holds the row type (`seq<Column>`, in column order) and column lookup.
The candidate's column names never repeat (`OneHot.CandidateDistinct`), so a
lookup there finds the one column of that name. The page copies a candidate
column by name only when the classifier expects that name, and the copy would
fail for an expected name labelling several candidate columns, so
`AlignColumns` requires that no expected name repeats in the candidate; a
repeated name the classifier does not expect is simply skipped. The expected list may
repeat a name: the zero row then has several columns of that name, and the
column assignment writes all of them. Idempotence holds in that case too.

`Feedback` models the FAQ flag as two optional session keys. The flag is
initialised to false only when absent. While false, Yes/No buttons are offered
and either one sets it to true with its own message. Once true, the buttons
disappear and the stored message is shown. The flag is one per session and is
shared by all FAQ questions, though the buttons' widget keys differ per
question. So feedback given on one question hides the buttons for every other
question. The model keeps this behaviour as written.

For a categorical field whose selected value is the dataset's missing value,
one-hot encoding emits no column, so that field then has no indicator set to 1.

## Model

| member | source | states |
|---|---|---|
| Frame.Lookup | src/app.py:151-153 | column access by name: it misses exactly when no column has that name, and a hit returns the value of a column with that name |
| Assembler.Assemble | src/app.py:110-134 | the assembled record has exactly the 23 schema fields, in the record's order |
| Assembler.ScalarFieldsDistinct | src/app.py:110-134 | the record's 23 field names are pairwise distinct |
| Assembler.BehavioralDefaults | src/app.py:113-119 | every behavioural field is looked up as 0 |
| Assembler.HouseholdDefaults | src/app.py:123-133 | `child_under_6_months`, `household_adults` and `household_children` are looked up as 0 |
| Assembler.OpinionDefaults | src/app.py:126-131 | every opinion field is looked up as 3 |
| Assembler.SliderValues | src/app.py:100-112 | the two slider fields hold the slider positions, which lie in 0..3 |
| Assembler.CheckboxValues | src/app.py:102-125 | each checkbox field holds 1 if its box is ticked and 0 otherwise |
| OneHot.Dummies | src/app.py:145 | a missing value yields no column; a present value yields exactly one column, named `{field}_{value}`, holding 1 |
| OneHot.ExpandFields | src/app.py:143-146 | the loop keeps the row's columns in place and appends at most one column per field, each holding 1 |
| OneHot.Candidate | src/app.py:140-146 | the candidate's first 23 columns are the assembled record, column for column, followed by at most four indicators, each holding 1 |
| OneHot.CandidateDistinct | src/app.py:110-146 | no name occurs twice among the candidate's columns |
| OneHot.CandidateShape | src/app.py:143-146 | the expansion loop appends the age, education, race and sex indicators, in that order, after the record |
| OneHot.IndicatorNameInjective | src/app.py:145 | two indicator names are equal if and only if field and value are equal |
| OneHot.IndicatorNameIsIndicator | src/app.py:145 | an indicator name carries its own field's prefix and no other field's |
| OneHot.ExpandedIndicator | src/app.py:143-146 | appending the four fields' indicators to a row without a given indicator name makes the row hold that name exactly when its value is the field's selection, and then with 1 |
| OneHot.CandidateIndicator | src/app.py:143-146 | the candidate holds `{field}_{w}` exactly when `w` is the selected value, and then with value 1 |
| OneHot.CandidateScalar | src/app.py:140-146 | the one-hot step leaves every scalar field's value as assembled |
| Aligner.Zeros | src/app.py:150 | the starting row has exactly the expected names, in order, and every one of them reads 0 |
| Aligner.SetColumn | src/app.py:153 | the column assignment sets every column of that name to the value and leaves names, order and all other columns unchanged |
| Aligner.SetColumnLookup | src/app.py:153 | after the assignment the name reads the new value if the row has it, and every other name reads as before |
| Aligner.AlignSnoc | src/app.py:151-153 | one more candidate column changes the aligned row as the guarded column assignment does, and not at all when the name is not expected |
| Aligner.AlignColumns | src/app.py:149-153 | for a candidate in which no expected name repeats, the loop's row has exactly the expected names in order; each expected column holds the candidate's value if the candidate has that name, else 0; it equals the reference alignment |
| Aligner.AlignShape | src/app.py:150 | the aligned names are the expected list, and no unexpected candidate column survives |
| Aligner.AlignCongruent | src/app.py:150-153 | alignment depends only on what the candidate holds under expected names |
| Aligner.AlignIdempotent | src/app.py:150-153 | aligning an aligned row against the same list gives the same row |
| Pipeline.Prepare | src/app.py:140-153 | the prepared row's names are exactly the classifier's list, and it equals the reference preparation |
| Pipeline.CandidateNames | src/app.py:140-146 | a candidate column is a scalar field or the indicator of a selected value, and each of those is a candidate column |
| Pipeline.PreparedScalar | src/app.py:151-153 | an expected scalar field carries the assembled value unchanged |
| Pipeline.PreparedIndicator | src/app.py:143-153 | an expected `{field}_{w}` column is 1 if `w` is the selected value and 0 otherwise |
| Pipeline.PreparedUnmatchedZero | src/app.py:150-153 | an expected column that is neither a scalar field nor a selected indicator is 0 |
| Pipeline.UnseenCategoryVanishes | src/app.py:145-153 | if the selected value's indicator is not expected, the row is still complete, all of that field's expected indicators are 0, and the row equals the one a missing selection gives |
| Pipeline.PrepareIdempotent | src/app.py:150-153 | re-aligning a prepared row onto the same list changes nothing |
| Feedback.Render | src/app.py:380-396 | the flag is set to false only when absent; either button sets it to true with its own message, shown at once; once true, no buttons, no change, and the stored message is shown |
| Feedback.RenderConsistent | src/app.py:394-396 | a run keeps "flag true implies a stored message", and then the message can always be shown |
| Feedback.NeverReset | src/app.py:380-392 | once the flag is true, any further runs leave the session unchanged |
| Feedback.ReachableConsistent | src/app.py:380-396 | from a consistent session, such as a fresh one, every later session is consistent and never fails to show its message |
| Feedback.FreshRunsConsistent | src/app.py:380-396 | from a fresh session, every later session is consistent and never fails to show its message |
| Feedback.FirstClickWins | src/app.py:384-392 | after idle runs, the first click sets the flag for good with that click's message |

## Left out

- Page layout, CSS, tabs, widgets and the gauge charts (src/app.py:8-65, 85-107, 160-193): presentation only. The widgets' initial positions are not modelled, only their ranges.
- Loading the pickled classifiers and the reference CSV (src/app.py:68-77): file I/O. The categorical domains it yields are any strings here.
- Reading the classifier's feature names and calling `predict_proba` (src/app.py:149, 156-157): foreign library calls. The feature list is a parameter, and the model stops at the aligned row. A classifier without stored feature names is not modelled.
- The probability thresholds and percentage formatting (src/app.py:174-186): floating-point display logic.
- The static vaccine and FAQ text and the footer's clock (src/app.py:195-411 apart from 380-396): content and the clock.
- Column dtypes: indicator columns are booleans in the source and integer 1 here.
- Aligner.AlignColumns: a candidate in which an expected name labels several columns, on which the page's column copy raises an error, is excluded by the precondition instead of being modelled as an error; the page's own candidate never repeats a name (`OneHot.CandidateDistinct`).
- Button clicks: a single `Click` per run stands for Streamlit reporting at most one pressed button per rerun.
