# Gender-coded trait mapper: the plain logic under the page

The trait mapper is a one-page app. The user enters traits. Each trait gets a score on a
bipolar scale that runs from 5F (very feminine) through 0 (neutral) to 5M (very masculine).
The page draws the traits as bubbles along a spectrum line, with a dotted line at the mean.
Rows can be deleted. A blank row appears once the last row is filled in. Traits from a
preset table can be picked, and each one is added as a new row.

This project models the sequential logic under the widgets and the plot calls, in Dafny.

- **Scale** (`scale.dfy`). Scores are held in half-units: the integers -10..10 stand for
  -5.0..5.0. The slider labels (`4.5F`, `0.0`, `5.0M`) and the tick labels (`5F`, `0`,
  `3M`) are rendered as strings. Each has a parser, and the round trip is proved.
- **Presets** (`presets.dfy`). This holds the 25-entry preset table and the score lookup
  used by the sync. The lookup returns the score from the first category that lists the
  trait, or 0.0 when no category does.
- **Text** (`text.dfy`). This models Python's `str.strip()` over the exact `str.isspace`
  character set, which decides whether a name is blank. It also renders natural numbers in
  decimal.
- **Traits** (`traits.dfy`). This models `zip`, the blank-name filter and the unzip that
  yields the two lists the chart is drawn from.
- **Rows** (`rows.dfy`). This is the session state: two parallel lists of names and scores,
  plus the preset selection last seen. It has three operations: delete row i, grow a blank
  row, and sync the preset selection. Python's `list.insert(-1, x)` is modelled with its
  empty-list behaviour.
- **Spectrum** (`spectrum.dfy`). This covers the mean (a `real`, 0 for no traits), the label
  heights in hundredths (`idx % 3` picks one of three levels), the palette slot
  (`idx % 10`), the fixed marker height, and one render pass.

Two facts about the code shape the model:
- The chart code does not trust its rows. Line 127 of `gender_trait_mapper.py` drops every
  row whose name is blank before anything is drawn, so `Spectrum.Render` starts from the
  raw rows and applies that filter itself.
- The row bookkeeping (lines 73-121: preset sync, the first-run state, delete and grow) is
  the program's only state logic, so it is modelled in full in `Rows`.

## Model

| member | source | states |
|---|---|---|
| Text.StripLeft | gender_trait_mapper.py:119 | Removes exactly the leading whitespace. The result is a suffix of the input, everything cut off is whitespace, the result does not start with whitespace, and it is empty exactly when the input is all whitespace |
| Text.StripRight | gender_trait_mapper.py:119 | Removes exactly the trailing whitespace. The result is a prefix of the input, everything cut off is whitespace, and the result does not end with whitespace |
| Text.Strip | gender_trait_mapper.py:119 | `strip()` never lengthens a name, and it returns the empty string exactly when the name is all whitespace |
| Text.StripIsTrimmedSlice | gender_trait_mapper.py:127 | `strip()` returns a slice of its input, and the margins it cuts off on either side are whitespace only |
| Text.StripHasNoSpaceAtEdges | gender_trait_mapper.py:127 | A stripped name that is not empty neither starts nor ends with whitespace |
| Text.BlankIffStripEmpty | gender_trait_mapper.py:127 | The recursive blank test `IsBlank` used throughout the model holds exactly when `name.strip() == ""`, the test the filter applies |
| Text.BlankIffAllSpace | gender_trait_mapper.py:127 | A name is blank (the filter's test, also the grow test at line 119) exactly when every character of it is whitespace |
| Text.NatToString | gender_trait_mapper.py:149 | `str(n)` for n >= 0 is a non-empty run of decimal digits with no leading zero |
| Text.ParseNatToString | gender_trait_mapper.py:149 | Reading the decimal rendering of n gives back n |
| Scale.OptionsAreGrid | gender_trait_mapper.py:110 | The slider's option list is exactly the 21 half-steps -5.0..5.0, in increasing order; a value is an option exactly when it is on the scale |
| Scale.HalfMagnitude | gender_trait_mapper.py:112 | `str(abs(x))` for a half-step x is a run of digits, a point, and one last digit, which is `5` exactly for odd half-units and `0` exactly for whole numbers |
| Scale.SliderLabel | gender_trait_mapper.py:112 | A slider label has at least three characters and ends in F exactly for a negative score and in M exactly for a positive one |
| Scale.HalfMagnitudeRoundTrip | gender_trait_mapper.py:112 | `str(abs(x))` for a half-step x is at least three characters, ends in `0` or `5`, and reads back as the number of half-units |
| Scale.SliderLabelRoundTrip | gender_trait_mapper.py:112 | The slider label of a score (`4.5F`, `0.0`, `5.0M`) reads back as that score, so the label always names its score unambiguously |
| Scale.SliderLabelInjective | gender_trait_mapper.py:112 | Two different scores never get the same slider label |
| Scale.SliderLabelMirror | gender_trait_mapper.py:112 | x and -x share the magnitude part and differ only in the letter. The letter is F exactly for x < 0, M exactly for x > 0 and absent exactly at 0, so x and -x get different labels unless x = 0 |
| Scale.TickLabel | gender_trait_mapper.py:149 | A tick label is non-empty and ends in F exactly left of 0 and in M exactly right of 0 |
| Scale.TickLabelRoundTrip | gender_trait_mapper.py:149 | A tick label (`5F`, `0`, `3M`) reads back as its integer position |
| Scale.Ticks | gender_trait_mapper.py:147-149 | The spectrum line has 11 ticks at -5..5, left to right. Each is labelled with its tick label, and only the tick at 0 is drawn as neutral |
| Scale.TickLabelsDistinct | gender_trait_mapper.py:147-149 | No two ticks carry the same label |
| Presets.PresetTableOnGrid | gender_trait_mapper.py:14-50 | Every score in the preset table lies on the 21-value scale |
| Presets.PresetTableShape | gender_trait_mapper.py:14-50 | The preset table has five categories of five traits each, from the emotional traits to style and presentation |
| Presets.ScoreIn | gender_trait_mapper.py:79-80 | A category yields a score for a trait exactly when the trait is one of its keys, and the score is the one stored with that trait |
| Presets.FirstWith | gender_trait_mapper.py:78-81 | The loop stops at the first category that lists the trait: no earlier category lists it, and the result is past the end only when no category does |
| Presets.Lookup | gender_trait_mapper.py:78-83 | Finds nothing exactly when no category lists the trait. Otherwise it returns the score stored in the first category that lists it |
| Presets.TableScore | gender_trait_mapper.py:78-83 | A synced trait's score is the one stored in the first category that lists it, or 0 when none does. Either way it is on the scale when the table is |
| Presets.PresetScore | gender_trait_mapper.py:78-83 | The score the sync gives a trait from the preset table is on the scale |
| Presets.PresetScoreStoic | gender_trait_mapper.py:18 | Stoic, stored at 4.5 under the emotional traits, syncs with score 4.5 |
| Traits.Zip | gender_trait_mapper.py:127 | `zip` stops at the shorter list |
| Traits.Unzip | gender_trait_mapper.py:129 | `zip(*pairs)` yields two lists, each as long as the list of pairs |
| Traits.ZipUnzip | gender_trait_mapper.py:129 | Splitting the filtered pairs into two lists and zipping them again gives back the same pairs |
| Traits.UnzipZip | gender_trait_mapper.py:127-129 | Zipping two equal-length lists and splitting the pairs gives back both lists |
| Traits.Kept | gender_trait_mapper.py:127 | Lists, in strictly increasing order, exactly the positions whose name is not blank |
| Traits.FilterBlank | gender_trait_mapper.py:127 | The filter never lengthens the list, and no kept pair has a blank name |
| Traits.FilterBlankKeepsNonBlankInOrder | gender_trait_mapper.py:127 | The k-th kept pair is the input pair at the k-th non-blank position. Order is kept, and each name stays with its own score |
| Traits.FilterBlankMembership | gender_trait_mapper.py:127 | A pair survives the filter exactly when it is in the input and its name is not blank |
| Traits.FilterBlankIdempotent | gender_trait_mapper.py:127 | Filtering already filtered pairs changes nothing |
| Traits.Prepare | gender_trait_mapper.py:127-131 | The chart's two lists are parallel, have no blank names, and hold exactly the non-blank rows' names and scores, in row order; both are empty when no row survives |
| Rows.Init | gender_trait_mapper.py:91-93 | The first run starts with exactly the names `[""]` and the scores `[0.0]`, and no presets seen |
| Rows.InitStable | gender_trait_mapper.py:91-121 | From the first-run state (lines 91-93) an empty selection at line 73 changes nothing, and under the grow rule of lines 119-121 a blank single row changes nothing, and a filled-in row gains exactly one blank row after it |
| Rows.RemoveAt | gender_trait_mapper.py:102-103 | `pop(i)` shortens a list by one. Elements before i stay in place and elements after i move down by one |
| Rows.Delete | gender_trait_mapper.py:101-103 | Deleting row i removes the i-th name and the i-th score. The rows before it keep their places, the rows after it move up one, and the preset memory is untouched |
| Rows.DeleteKeepsPairs | gender_trait_mapper.py:101-103 | After a delete the lists stay parallel and the pairs are the old pairs less the i-th one. The names lose exactly one occurrence of the deleted name |
| Rows.DeleteOnlyRowEmpties | gender_trait_mapper.py:101-103 | Deleting the only row of the first-run state leaves both lists empty |
| Rows.Grow | gender_trait_mapper.py:119-121 | When the last typed name is not blank, exactly one row is appended, with the name `""` and score 0, and the old rows are kept. Otherwise nothing changes |
| Rows.GrowChangesIffLastFilled | gender_trait_mapper.py:119-121 | Growth keeps the lists parallel and changes the state exactly when `typed[-1].strip() != ""` |
| Rows.InsertBeforeLastShape | gender_trait_mapper.py:77 | `insert(-1, x)` puts x just before the last element, which stays last. The front is untouched, the element counts grow by x alone, and an empty list becomes `[x]` |
| Rows.NewTraits | gender_trait_mapper.py:74-76 | The traits the sync loop inserts are never more than the selected traits |
| Rows.NewTraitsMembers | gender_trait_mapper.py:74-76 | A trait is inserted by the sync exactly when it is selected and was not a row before the sync |
| Rows.InsertPreset | gender_trait_mapper.py:77-84 | One step of the sync loop adds one row: the names gain exactly the trait, the scores gain exactly its preset score, and the preset memory is untouched |
| Rows.InsertAll | gender_trait_mapper.py:75-84 | The sync loop grows both lists by exactly the number of new traits and leaves the preset memory alone |
| Rows.InsertEachClosedForm | gender_trait_mapper.py:75-77 | Repeated `insert(-1, …)` places the items, in order, between the untouched front and the last element |
| Rows.InsertAllProjects | gender_trait_mapper.py:75-84 | The sync loop inserts the new traits into the names and, in step, their scores into the scores |
| Rows.InsertAllClosedForm | gender_trait_mapper.py:75-84 | After the sync loop the names are: the earlier rows, then the new traits in selection order, then the old last row. The scores follow the same layout with the new traits' scores in the middle |
| Rows.Sync | gender_trait_mapper.py:73-85 | The sync records the selection it saw. It changes nothing when the selection equals the one last seen, and it grows both lists by the same amount |
| Rows.SyncClosedForm | gender_trait_mapper.py:73-85 | A sync that sees a changed selection puts the new traits, with their preset scores, between the earlier rows and the last row |
| Rows.SyncKeepsRows | gender_trait_mapper.py:73-85 | Sync keeps the lists parallel. The last row keeps its name and score and stays last, and the rows before it are unchanged and in order |
| Rows.SyncInsertsOnlyNewSelected | gender_trait_mapper.py:74-77 | After a sync that sees a changed selection, each inserted position lies before the last row and holds a selected trait that was absent before the sync |
| Rows.SyncInsertedScore | gender_trait_mapper.py:78-84 | After a sync that sees a changed selection, each inserted row carries its trait's preset score |
| Rows.SyncNoReinsert | gender_trait_mapper.py:74-76 | A trait already present occurs as often after the sync as before |
| Rows.SyncCoversSelection | gender_trait_mapper.py:73-85 | After a sync that sees a changed selection, every selected trait is a row |
| Rows.SyncIdempotent | gender_trait_mapper.py:73-85 | Syncing the same selection a second time changes nothing |
| Spectrum.SumBounds | gender_trait_mapper.py:152 | A sum of n scores that each lie in [lo, hi] lies in [n·lo, n·hi] |
| Spectrum.Mean | gender_trait_mapper.py:152 | The mean is 0 with no scores. Otherwise, times the count, it gives back the sum of the scores |
| Spectrum.LabelHeight | gender_trait_mapper.py:158 | A label sits at one of the three heights 0.27, 0.35 and 0.43 |
| Spectrum.PaletteSlot | gender_trait_mapper.py:159 | A bubble's colour is one of the ten `tab10` slots |
| Spectrum.MeanBetween | gender_trait_mapper.py:152 | The mean of a non-empty score list lies between its smallest and its largest score |
| Spectrum.MeanOnScale | gender_trait_mapper.py:152 | For scores on the scale the mean lies in [-5.0, 5.0] |
| Spectrum.LabelHeightLevels | gender_trait_mapper.py:158 | The label height is 0.27, 0.35 or 0.43 according to idx mod 3, and two labels share a height exactly when their indices agree mod 3 |
| Spectrum.NeighboursDiffer | gender_trait_mapper.py:158-159 | Any three consecutive traits get three different label heights and any ten get ten different palette slots. Both patterns repeat with periods 3 and 10 |
| Spectrum.Bubbles | gender_trait_mapper.py:157-161 | There is one bubble per trait, in order. Each carries its own trait's name, sits at that trait's score, and has its marker at the fixed height 0.4 |
| Spectrum.BubblesPrefixStable | gender_trait_mapper.py:157-161 | Adding traits at the end leaves the earlier bubbles unchanged, so layout depends only on a trait and its position |
| Spectrum.Render | gender_trait_mapper.py:127-161 | A render pass draws exactly one bubble per non-blank row. The mean line is the mean of the scores the filter keeps, and 0 when it keeps none |
| Spectrum.RenderMeanIsAverage | gender_trait_mapper.py:127-152 | With some non-blank row, the scores averaged are exactly the non-blank rows' scores, in row order, and the mean line times their count is their sum |
| Spectrum.RenderFollowsRows | gender_trait_mapper.py:157-161 | The k-th bubble carries the name of the k-th non-blank row, which is not blank, and sits at that row's score. Its label height and palette slot are given by k |
| Spectrum.RenderEmpty | gender_trait_mapper.py:128-131 | With no non-blank rows there are no bubbles and the mean line sits at 0 |
| Spectrum.RenderMeanOnScale | gender_trait_mapper.py:152-153 | When every entered score is on the scale, the mean line lies within [-5.0, 5.0] |
| Spectrum.RenderOppositePair | gender_trait_mapper.py:152-160 | Nurturing (-4.5) with Stoic (4.5) gives a neutral mean and two bubbles at -4.5 and 4.5 |

## Left out

- Streamlit is not modelled: widgets, `st.session_state` persistence, `st.rerun`, columns, the
  page title and page config. They are UI plumbing. The names typed on a run appear as the
  `typed` parameter of `Rows.Grow`, and the preset selection appears as the `selected`
  parameter of `Rows.Sync`.
- matplotlib drawing is not modelled: figure and axes, background gradient colours, patches,
  fonts, text rotation, and the actual `tab10` colours. These are library calls and float
  colour arithmetic. Only the index-to-height and index-to-palette-slot mappings are
  modelled.
- Spectrum.Render does not include the ticks, which do not depend on the input. They are
  `Scale.Ticks`.
- The `Mean: {:.1f}` text is not modelled, because it depends on binary float rounding.
  `Spectrum.Mean` is the exact rational mean. `np.mean`'s float rounding is not modelled.
- Scale.SliderLabel: Python switches `str(float)` to exponent notation at magnitude 1e16.
  The model renders every magnitude in plain decimal. The two agree on the 21 slider values.
- Spectrum.LabelHeightLevels: heights are exact hundredths. The float `0.35 + 0.08 * (…)`
  is not bit-exact.
- `default_traits` and `default_scores` (lines 87-88) are not modelled. They are computed
  but never read. `flattened_traits` (lines 52-56) is not modelled either: it is read only
  at line 88, to build `default_scores`.
- Rows.Sync: on a first run, line 74 reads `traits_state` before line 91 creates it. The
  model's session always has both lists. Sync's closed form and row-keeping lemmas also
  require non-empty lists. On an empty list `insert(-1, x)` puts x at the front, which the
  model also follows.
- Rows.Grow requires at least one typed row, because `input_traits[-1]` at line 119 raises
  on an empty list. `Rows.DeleteOnlyRowEmpties` shows that deleting the only row reaches
  that state.
- The preset multiselect widgets are not modelled (lines 61-67). Any list of trait names
  can be passed as the selection.
- Rows.Sync: `existing_traits` is taken once, before the loop. A trait selected twice that
  was absent is therefore inserted twice, and the model does the same. The multiselects
  never produce a repeat.
