# pyrecon merge tool: conflict-resolution bookkeeping

pyrecon's merge tool (`pyrecon/toolsgui/mergeTool2.py`) reconciles two
RECONSTRUCT series, a primary and a secondary. The tool opens resolver windows
for series attributes, series contours, series ZContours, section attributes
and section images. This project models the logic inside those windows with
the Qt widgets stripped away:

- **The conflict table** (`Table`, `Labels`). Each row has a label and a
  colour state: light green means the two sides agree, pink means an
  unresolved conflict, and yellow means the user resolved it.
  `textResolveDetail.choose` strips `" (Primary)"` and `" (Secondary)"` from
  the label, appends the chosen suffix and paints the row yellow. Labels are
  strings. Python's `in` and `str.replace` are modelled exactly: left to
  right, no overlaps.
- **Building the tables** (`Classify`). The section attribute and section
  image tables pair position i of the primary with position i of the
  secondary, colour each row and count the conflicts. The series attribute
  table lists the conflicting keys first, then the agreed keys.
- **Reading a table back** (`Materialize`, `Resolvers`). This is
  `updateAndClose`. A row whose label contains `(Secondary)` takes the
  secondary value. Every other row takes the primary value.
- **Contours** (`Contours`). The series contours are filtered by tag. The
  user then picks one whole category: primary or secondary, or for ZContours
  also "both".
- **The main window** (`Session`). Two flags record that the series and
  section windows were opened. The finish button is lit once both are set.

`Outcomes` holds Option and Result values. `Records` holds the series,
section, image and contour records. Each record stands for its `output()`
dictionary, which is what the resolvers compare.

`Resolvers.NewSectionAttributeResolver` builds the section attribute
resolver from `SectionOutputs` and `SectionIndices` of each series'
sections. `Resolvers.NewSectionImageResolver` builds the section image
resolver from `FirstImages` and `SectionIndices`.

Behaviour of the code worth knowing, which the model keeps:
- **Missing keys.** A click on a series attribute row looks the row's key up
  in both dictionaries before the chooser opens. A key missing from either
  one raises `KeyError`, and the row stays unresolved. `updateAndClose` reads
  every unresolved row from the primary dictionary, so a key missing from
  the primary raises `KeyError` there whatever the user clicks. The model
  returns `Failure(key)` (`Resolvers.MissingPrimaryFails`).
- **Unequal section counts.** The comparison loop runs to the longer length
  and raises `IndexError` at the shorter one. The model returns
  `Failure(IndexError(min))`, and a section resolver exists only for equal
  lengths.
- **Finishing.** `finish` is empty, so nothing finalizes the merge.

## Model

| member | source | states |
|---|---|---|
| `Labels.Contains` | pyrecon/toolsgui/mergeTool2.py:425 | Python's `pat in s` (also line 582); its properties are stated by `ContainsAppended`, `NoContainsAcross`, `MissingCharNotContained` and `TakesSecondaryIff` |
| `Labels.Strip` | pyrecon/toolsgui/mergeTool2.py:409-410 | the two chained replaces of the lookup key (also line 726); it never lengthens the text, and `StripRecoversBase` states that it recovers the base of each row text |
| `Labels.WithChoice` | pyrecon/toolsgui/mergeTool2.py:725-730 | the new row text after `choose`; `ChooseKeepsBase`, `LastChoiceWins` and `ChoiceDecidesSide` state its effect |
| `Labels.MergeKey` | pyrecon/toolsgui/mergeTool2.py:424-430 | the key `updateAndClose` derives from a row text, never longer than the text; `MergeKeyIsBase` states it equals the stripped base |
| `Labels.Suffix` | pyrecon/toolsgui/mergeTool2.py:727-730 | the suffix appended by a choice is exactly `" (Primary)"` or `" (Secondary)"` |
| `Labels.Remove` | pyrecon/toolsgui/mergeTool2.py:726 | `str.replace(pat, '')` never lengthens the text (its exact effect is stated by the next lemmas) |
| `Labels.RemoveAbsent` | pyrecon/toolsgui/mergeTool2.py:726 | replacing a tag that does not occur leaves the text unchanged |
| `Labels.RemoveAppended` | pyrecon/toolsgui/mergeTool2.py:726 | replacing a tag that occurs only as the appended suffix gives back the text before it |
| `Labels.ContainsAppended` | pyrecon/toolsgui/mergeTool2.py:582 | a label ending in `" (Secondary)"` contains `(Secondary)` |
| `Labels.NoContainsAcross` | pyrecon/toolsgui/mergeTool2.py:425 | appending a suffix whose first character occurs in a tag only at its start creates no occurrence of that tag across the boundary |
| `Labels.MissingCharNotContained` | pyrecon/toolsgui/mergeTool2.py:425 | a text lacking a character of a tag does not contain the tag |
| `Labels.TagFacts` | pyrecon/toolsgui/mergeTool2.py:725-731 | neither suffix occurs in the other; `(Secondary)` does not occur in `" (Primary)"`; `" (Secondary)"` is a space followed by `(Secondary)`; each suffix has a space only at its start |
| `Labels.StripRecoversBase` | pyrecon/toolsgui/mergeTool2.py:726 | stripping both suffixes from a clean base, the base plus `" (Primary)"`, or the base plus `" (Secondary)"` gives back the base |
| `Labels.CleanIsWellFormed` | pyrecon/toolsgui/mergeTool2.py:389 | a freshly written row label is a well-formed label whose base is itself |
| `Labels.ChooseKeepsBase` | pyrecon/toolsgui/mergeTool2.py:725-730 | choosing sets the label to base + suffix; the stripped base (the lookup key) is unchanged; the label stays well-formed |
| `Labels.LastChoiceWins` | pyrecon/toolsgui/mergeTool2.py:725-730 | choosing again replaces the suffix instead of stacking it: the second choice alone decides the label |
| `Labels.ChooseIdempotent` | pyrecon/toolsgui/mergeTool2.py:725-730 | choosing the same side twice equals choosing it once |
| `Labels.TakesSecondaryIff` | pyrecon/toolsgui/mergeTool2.py:582-587 | a well-formed label contains `(Secondary)` iff it is base + `" (Secondary)"`; untouched and Primary labels do not |
| `Labels.MergeKeyIsBase` | pyrecon/toolsgui/mergeTool2.py:425-430 | the dictionary key `updateAndClose` derives from a well-formed label is its stripped base label |
| `Labels.ChoiceDecidesSide` | pyrecon/toolsgui/mergeTool2.py:725-730 | after a choice, the row takes the secondary value iff the choice was Secondary |
| `Labels.NoParenIsClean` | pyrecon/toolsgui/mergeTool2.py:553 | a label with no `(` contains none of the tags |
| `Table.OpensAsWritten` | pyrecon/toolsgui/mergeTool2.py:405-407 | the gate as written opens exactly the pink rows (`#ffc0cb`); no row colour is named `#ffff66` |
| `Table.ChooseRow` | pyrecon/toolsgui/mergeTool2.py:725-731 | `choose` on one row: the row is painted yellow, which the corrected gate opens and the gate as written refuses |
| `Table.Apply` | pyrecon/toolsgui/mergeTool2.py:725-731 | one click (corrected gate): only the clicked row can change, the length is kept, and a row the gate refuses is left alone; `ChoicesSettleRow` states the effect of a sequence |
| `Table.ApplyAll` | pyrecon/toolsgui/mergeTool2.py:725-731 | a sequence of clicks, applied in order; `ApplyAllKeepsLength`, `ChoicesSettleRow` and `ChoicesDecideSide` state its effect |
| `Table.ResolvedRowLockedAsWritten` | pyrecon/toolsgui/mergeTool2.py:404-410 | with the gate as written, pink rows open a resolver but a row painted by `choose` never does; the corrected gate opens it |
| `Table.ChosenSecondaryLocked` | pyrecon/toolsgui/mergeTool2.py:725-731 | any clean label resolved to Secondary reads base + `" (Secondary)"` and is refused by the gate as written |
| `Table.OwnerLockedAsWritten` | pyrecon/toolsgui/mergeTool2.py:731 | concrete case: the "owner" row resolved to Secondary reads `owner (Secondary)` and can no longer be opened with the gate as written |
| `Table.ChoicesSettleRow` | pyrecon/toolsgui/mergeTool2.py:725-731 | after any sequence of clicks (corrected gate), a pink row carries base + the suffix of the last choice made for it and is yellow; a green row is never changed |
| `Table.ChoicesDecideSide` | pyrecon/toolsgui/mergeTool2.py:725-731 | after any sequence of clicks, every row keeps its base label and takes the secondary value iff it was pink and its last choice was Secondary |
| `Table.ApplyAllKeepsLength` | pyrecon/toolsgui/mergeTool2.py:725-731 | clicks never add or remove rows |
| `Table.ConflictTable.Choose` | pyrecon/toolsgui/mergeTool2.py:725-731 | only an opened row (pink or yellow: the corrected gate `Table.Opens`, see ## Findings) can be chosen; it becomes base + suffix, painted yellow; every other row is unchanged |
| `Table.ConflictTable.constructor` | pyrecon/toolsgui/mergeTool2.py:383 | the table holds the rows it is built with |
| `Records.SectionOutputs` | pyrecon/toolsgui/mergeTool2.py:528-529 | `[section.output() for section in series.sections]`: one dictionary per section, in order |
| `Records.SectionIndices` | pyrecon/toolsgui/mergeTool2.py:553 | the index of each section, in order, used for the row labels |
| `Records.FirstImages` | pyrecon/toolsgui/mergeTool2.py:600-601 | the first-image projection succeeds iff every section has an image, and then it holds each section's first image in order |
| `Classify.DecimalText` | pyrecon/toolsgui/mergeTool2.py:625 | `str(index)` is a non-empty string of decimal digits |
| `Classify.SectionLabel` | pyrecon/toolsgui/mergeTool2.py:553 | the label `'Section ' + index` of a section row (also line 625); `SectionLabelClean` states it carries no tag |
| `Classify.SectionLabelClean` | pyrecon/toolsgui/mergeTool2.py:625 | a `Section <index>` label contains no tag, so the label protocol applies to section rows |
| `Classify.LoadSectionRows` | pyrecon/toolsgui/mergeTool2.py:549-561 | the comparison loop (attributes here; images at lines 621-633 are the same) fails with IndexError at min(len) iff the lengths differ; otherwise row i is green iff p[i] == s[i], else pink, and `numConflicts` is the number of indices with p[i] != s[i] |
| `Classify.ConflictsStep` | pyrecon/toolsgui/mergeTool2.py:555-559 | comparing one more position adds a conflict exactly when that pair disagrees |
| `Classify.IdenticalSeriesNoConflicts` | pyrecon/toolsgui/mergeTool2.py:555-559 | comparing a series with itself gives no conflict |
| `Classify.PinkRowsAreConflicts` | pyrecon/toolsgui/mergeTool2.py:555-559 | the pink rows are exactly the disagreeing positions; a green row is never a disagreeing pair |
| `Classify.SectionRowsInitial` | pyrecon/toolsgui/mergeTool2.py:553-558 | a freshly loaded section table has clean labels, no yellow row, and green rows exactly where the pair agrees |
| `Classify.KeyRows` | pyrecon/toolsgui/mergeTool2.py:388-399 | one row per key, labelled by the key, all of one colour, as many rows as keys |
| `Classify.LoadSeriesRows` | pyrecon/toolsgui/mergeTool2.py:383-401 | the series attribute table has len(conflicts)+len(agreed) rows, pink conflict rows first and green agreed rows after, and `numConflicts == len(conflicts)` |
| `Materialize.MergedList` | pyrecon/toolsgui/mergeTool2.py:578-588 | the merged list has exactly one entry per table row |
| `Materialize.MaterializeList` | pyrecon/toolsgui/mergeTool2.py:578-588 | `updateAndClose` of the section tables (and of images, lines 650-660): entry i is the secondary value iff row i's label contains `(Secondary)`, else the primary value |
| `Materialize.UntouchedListIsPrimary` | pyrecon/toolsgui/mergeTool2.py:585-587 | a table nobody touched merges to the primary list (default to primary) |
| `Materialize.SelfMergeList` | pyrecon/toolsgui/mergeTool2.py:578-588 | when both sides are equal, the merge gives them back whatever the table says |
| `Materialize.ListFollowsChoices` | pyrecon/toolsgui/mergeTool2.py:578-588 | after any clicks, entry i is the secondary value iff the last choice for row i was Secondary |
| `Materialize.MergeAttributes` | pyrecon/toolsgui/mergeTool2.py:421-431 | the series attribute merge of `updateAndClose`, row by row, with `Failure(key)` for a KeyError; `MergeSucceedsIff`, `MergedKeys`, `MergedValues` and `FailureSticks` state its properties |
| `Materialize.MaterializeAttributes` | pyrecon/toolsgui/mergeTool2.py:421-431 | the row-by-row dictionary loop of the series attribute resolver, including the KeyError on a missing key |
| `Materialize.MergeSucceedsIff` | pyrecon/toolsgui/mergeTool2.py:421-431 | the dictionary merge raises no KeyError iff every row's key is in the dictionary that row reads |
| `Materialize.MergedKeys` | pyrecon/toolsgui/mergeTool2.py:421-431 | a successful merge holds exactly the keys of the rows |
| `Materialize.MergedValues` | pyrecon/toolsgui/mergeTool2.py:421-431 | with one row per key, each key maps to the value of the side its row reads |
| `Materialize.FailureSticks` | pyrecon/toolsgui/mergeTool2.py:421-431 | once a row raises KeyError, the later rows are never read |
| `Materialize.MergeKeysAreBases` | pyrecon/toolsgui/mergeTool2.py:425-430 | every row of a well-formed table is keyed by its stripped label |
| `Resolvers.SeriesAttributeResolver.constructor` | pyrecon/toolsgui/mergeTool2.py:378-401 | the resolver holds both attribute dictionaries and the rows `serAttHandler` lays out (`SeriesRows`), with `numConflicts == len(conflicts)`, and nothing merged yet |
| `Resolvers.SeriesAttributeResolver.ResolveDetail` | pyrecon/toolsgui/mergeTool2.py:404-410 | only pink or yellow rows (the corrected gate `Table.Opens`, see ## Findings) open a resolver, on both values looked up by the stripped label; a key missing from either dictionary raises instead |
| `Resolvers.SeriesAttributeResolver.UpdateAndClose` | pyrecon/toolsgui/mergeTool2.py:421-431 | the merged dictionary is the dictionary merge of the current table, or the missing key is reported |
| `Resolvers.SeriesApply` | pyrecon/toolsgui/mergeTool2.py:404-410 | one click through `resolveDetail`: only the clicked row can change, the length is kept, and a row whose key a dictionary lacks is left alone |
| `Resolvers.SeriesApplyAll` | pyrecon/toolsgui/mergeTool2.py:404-410 | a sequence of such clicks; `SeriesClicksReachable` reduces it to `Table.ApplyAll` over the reachable clicks |
| `Resolvers.SeriesRows` | pyrecon/toolsgui/mergeTool2.py:383-400 | the series attribute table as laid out, one row per conflict key then per agreed key; `SeriesRowsInitial` states its rows |
| `Resolvers.SeriesAttributeResolver.Click` | pyrecon/toolsgui/mergeTool2.py:404-410 | a click opens the chooser iff the row is pink or yellow (corrected gate) and both dictionaries hold its key; only then does the pick rewrite the row, otherwise the table is unchanged |
| `Resolvers.SeriesClicksReachable` | pyrecon/toolsgui/mergeTool2.py:404-410 | clicking through `resolveDetail` equals clicking with the clicks on rows whose key a dictionary lacks dropped |
| `Resolvers.LastReachable` | pyrecon/toolsgui/mergeTool2.py:404-410 | a row's last effective choice is its last click when both dictionaries hold its key, and none otherwise |
| `Resolvers.SeriesRowsInitial` | pyrecon/toolsgui/mergeTool2.py:383-401 | the series attribute table as laid out is untouched, row i is labelled key i, and pink exactly for the conflict keys |
| `Resolvers.SeriesTableRows` | pyrecon/toolsgui/mergeTool2.py:383-410 | after any clicks, row i of the series attribute table is keyed by attribute i and takes the secondary value iff it is a conflict row, both dictionaries hold its key, and its last choice was Secondary; a row whose key a dictionary lacks is never changed |
| `Resolvers.SeriesTableSources` | pyrecon/toolsgui/mergeTool2.py:421-431 | each row reads the dictionary `ChosenSource` names (secondary only for a conflict key both sides hold whose last choice was Secondary); distinct keys give distinct row keys |
| `Resolvers.AttributesSucceedIff` | pyrecon/toolsgui/mergeTool2.py:421-431 | after any clicks, the series attribute merge raises no KeyError iff every attribute key is in the primary dictionary |
| `Resolvers.MissingPrimaryFails` | pyrecon/toolsgui/mergeTool2.py:404-431 | a key the primary dictionary lacks makes the merge raise KeyError for every click sequence |
| `Resolvers.AttributesKeys` | pyrecon/toolsgui/mergeTool2.py:421-431 | a successful series attribute merge has exactly the attribute keys of the table |
| `Resolvers.AttributesValues` | pyrecon/toolsgui/mergeTool2.py:421-431 | a successful series attribute merge maps each key to the secondary value iff it is a conflict key both sides hold whose last choice was Secondary, else to the primary value |
| `Resolvers.AttributesFollowChoices` | pyrecon/toolsgui/mergeTool2.py:421-431 | series attributes merge into a dictionary keyed by the attribute names; KeyError iff some key is missing from the primary; a conflict key both sides hold whose last choice was Secondary maps to the secondary value, and every other key (Primary, unresolved, missing from the secondary, agreed) to the primary value |
| `Resolvers.OwnerScaleKeysClean` | pyrecon/toolsgui/mergeTool2.py:389 | the keys "owner" and "scale" are distinct and clean |
| `Resolvers.OneConflictOneAgreed` | pyrecon/toolsgui/mergeTool2.py:421-431 | one conflict key and one agreed key held by both sides: the conflict key takes the side of its last choice and the agreed key the shared value |
| `Resolvers.OwnerScaleUnresolved` | pyrecon/toolsgui/mergeTool2.py:421-431 | primary {owner: A, scale: 1.0}, secondary {owner: B, scale: 1.0}, owner in conflict and unresolved: the merge is {owner: A, scale: 1.0} |
| `Resolvers.OwnerScaleResolved` | pyrecon/toolsgui/mergeTool2.py:421-431 | the same after choosing Secondary on the owner row: {owner: B, scale: 1.0} |
| `Resolvers.NewSectionAttributeResolver` | pyrecon/toolsgui/mergeTool2.py:520-561 | a section attribute resolver compares the series' section output dictionaries (`SectionOutputs`), labels rows by the primary sections' indices, and colours row i green iff the two dictionaries agree |
| `Resolvers.NewSectionImageResolver` | pyrecon/toolsgui/mergeTool2.py:592-633 | a section image resolver exists iff every section of both series has an image; it compares the first images and colours row i green iff they agree |
| `Resolvers.SectionMergeFollowsChoices` | pyrecon/toolsgui/mergeTool2.py:650-660 | for a loaded section table and any clicks, entry i is s[i] iff the last choice for row i was Secondary, else p[i]; with no clicks the merge is the primary list |
| `Resolvers.SectionResolver.constructor` | pyrecon/toolsgui/mergeTool2.py:537-561 | for equal lengths, the table has row i green iff the pair agrees, labelled `Section <index>`, and `numConflicts` counts the disagreeing positions |
| `Resolvers.SectionResolver.ResolveDetail` | pyrecon/toolsgui/mergeTool2.py:570-576 | only pink or yellow rows (the corrected gate `Table.Opens`, see ## Findings) open a resolver, on the two values of that row |
| `Resolvers.SectionResolver.UpdateAndClose` | pyrecon/toolsgui/mergeTool2.py:578-588 | the merged list is the list the current table stands for, and the resolver stays valid |
| `Contours.FilterByTag` | pyrecon/toolsgui/mergeTool2.py:442-443 | the filter keeps exactly the contours with the tag, and is no longer than its input |
| `Contours.FilterKeepsOrder` | pyrecon/toolsgui/mergeTool2.py:442-443 | the filter distributes over concatenation, so the original order is kept |
| `Contours.FilterCounts` | pyrecon/toolsgui/mergeTool2.py:481-482 | each contour with the tag is kept as often as it occurs, and no other contour is kept |
| `Contours.CategoriesDisjoint` | pyrecon/toolsgui/mergeTool2.py:442-482 | the Contour and ZContour categories share no contour, and together hold at most the series' contours |
| `Contours.FilterIdempotent` | pyrecon/toolsgui/mergeTool2.py:442-443 | filtering twice by a tag equals filtering once |
| `Contours.ContourResolver.constructor` | pyrecon/toolsgui/mergeTool2.py:442-445 | the resolver holds each side's `Contour`-tagged contours and nothing merged yet |
| `Contours.ContourResolver.Choose` | pyrecon/toolsgui/mergeTool2.py:465-470 | the merged contours are exactly the chosen side's filtered list |
| `Contours.ZContourResolver.constructor` | pyrecon/toolsgui/mergeTool2.py:481-484 | the resolver holds each side's `ZContour`-tagged contours and nothing merged yet |
| `Contours.ZContourResolver.Choose` | pyrecon/toolsgui/mergeTool2.py:508-517 | the merged ZContours are either side's filtered list, or the external merge of both |
| `Session.Confirm` | pyrecon/toolsgui/mergeTool2.py:161-164 | `checkConfButs` lights the finish button iff both flags are set (or it was lit) and changes no other flag |
| `Session.Step` | pyrecon/toolsgui/mergeTool2.py:136-164 | one event of the main window; `StepNeverResets` states that no event clears a flag |
| `Session.Run` | pyrecon/toolsgui/mergeTool2.py:136-164 | a sequence of events from a given state; `RunFromStart` and `ReadyIsMonotone` state its effect |
| `Session.StepNeverResets` | pyrecon/toolsgui/mergeTool2.py:151-164 | no event ever clears a flag |
| `Session.RunFromStart` | pyrecon/toolsgui/mergeTool2.py:136-164 | from the start, the buttons are wired iff the series were loaded; check1 (check2) is set iff the series (section) button was clicked after loading; the finish button is lit iff both are set |
| `Session.ClickAfterLoadStep` | pyrecon/toolsgui/mergeTool2.py:141-142 | a click after loading is in the earlier events, or it is the newest event with a load before it |
| `Session.ReadyIsMonotone` | pyrecon/toolsgui/mergeTool2.py:161-164 | once lit, the finish button stays lit whatever happens next |
| `Session.MainContainer.constructor` | pyrecon/toolsgui/mergeTool2.py:19-22 | both flags start false, and nothing is wired or lit |
| `Session.MainContainer.StepTwo` | pyrecon/toolsgui/mergeTool2.py:136-142 | loading the series wires the two conflict buttons and changes nothing else |
| `Session.MainContainer.SeriesConflicts` | pyrecon/toolsgui/mergeTool2.py:147-152 | sets check1 and then lights the finish button if check2 is set |
| `Session.MainContainer.SectionConflicts` | pyrecon/toolsgui/mergeTool2.py:154-159 | sets check2 and then lights the finish button if check1 is set |
| `Session.MainContainer.CheckConfButs` | pyrecon/toolsgui/mergeTool2.py:161-164 | lights the finish button iff both flags are set, never unlights it |

## Findings

| source | as written | input that shows it | evidently intended | confidence | as-written member | corrected member |
|---|---|---|---|---|---|---|
| pyrecon/toolsgui/mergeTool2.py:407 | `resolveDetail` opens a resolver only for colour names `#ffc0cb` and `#ffff66`, but `choose` paints resolved rows `QColor('yellow')`, whose name is `#ffff00` | a pink "owner" row resolved to Secondary: it is yellow `#ffff00`, is refused by the gate, and the user cannot change the choice to Primary | resolved (yellow) rows reopen, so a choice can be revised and the last choice wins | medium: depends on Qt's SVG colour names; not executed | `Table.OwnerLockedAsWritten` (gate `Table.OpensAsWritten`) | `Table.ChoicesSettleRow` (gate `Table.Opens`) |

## Left out

- Qt is not modelled: widget construction, layouts, geometry, palettes as rendering, `show`/`close`, and the header texts. Colour is kept only as the abstract row state `Table.Color`.
- File dialogs, the `.ser` path check and the confirmation box in `loadSer` are not modelled. `classes.loadSeries` is file I/O in a module that is not part of this model. Loading is the single event `SeriesLoaded`.
- `mergeTool.mergeSeriesAttributes` is not part of this model. The conflict and agreed key lists it hands to `serAttHandler` are parameters.
- `mergeTool.mergeSeriesZContours` is not part of this model. It is the function-valued field `ZContourResolver.mergeBoth`, and no property of it is assumed.
- `section.output()` and `image.output()` are not part of this model. A record is represented by its output dictionary. The section-attribute row label is taken to be the decimal text of the section's `index`.
- `sectionContourResolver` is a stub that only prints, and `finish` is empty. Neither has behaviour to state.
- `closeWin` of the two conflict windows is not modelled: it copies the resolvers' results with `try/except` and prints. An unvisited category stays `None`, as `merged == None` in each resolver.
- `pyrecon/gui/main.py` is not modelled: Qt dialogs and calls into modules that are not part of this model.
- Resolver windows are not modelled as objects. On the series attribute table a click and pick is `SeriesAttributeResolver.Click`, which runs the lookups of `resolveDetail` first. That resolver keeps its rows itself, so `Click` is the only way to change them. On the section tables it is `ConflictTable.Choose` on the row the window was opened for. Whether two resolver windows are open at once is not tracked.
- `Resolvers.SeriesAttributeResolver.UpdateAndClose`: on a KeyError the source leaves the partly built dictionary in `mergedAttributes`. The model leaves `merged` unchanged and reports the key.
- `Labels.StripRecoversBase`, `Labels.TakesSecondaryIff` and the lemmas built on them hold only for base labels that contain none of `" (Primary)"`, `" (Secondary)"` and `"(Secondary)"`. Section labels are proved to be such. For attribute names the condition is a hypothesis. An attribute name containing `(Secondary)` would take the secondary value unresolved, and the model does not prove anything about such names.
- `Session.MainContainer.SeriesConflicts`, `Session.MainContainer.SectionConflicts`: they require the buttons to be wired, because the handlers are reachable only through the signal `stepTwo` connects. Unwired clicks are no-ops in `Session.Step`.
- AttributesValues, AttributesFollowChoices: they assume what `mergeSeriesAttributes` is expected to hand over: conflict and agreed key lists that are duplicate-free and disjoint, with clean names (`DistinctCleanKeys`). `AttributesSucceedIff`, `AttributesKeys` and `MissingPrimaryFails` need only clean names.
