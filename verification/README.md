# pwa-survey core, modelled in Dafny

pwa-survey is an offline-first survey app for health-facility accreditation against EMS
standards. A standards configuration has service elements (SEs), which hold sections,
which hold standards, which hold criteria. Assessors answer the criteria in the browser.
The app scores standards, sections and the whole assessment, classifies the result into
a compliance level, and takes an audit snapshot. A set of Python and Node scripts builds
and repairs the configuration and its criterion-link matrix from text extracted from the
standards PDFs and from a CSV import file.

This project models the logic of that code and proves what it promises:

- **Criterion codes.** Normalisation and segment-wise ordering of dotted codes
  (`src/utils/normalization.js`), and the Python variants of both in the matrix scripts.
- **Scoring and classification.**
  - Per-standard totals with NA exclusion and the critical-fail override, and the
    section and overall roll-ups (`src/utils/scoring.js`).
  - The 100-point-per-criterion aggregation of `src/hooks/useAssessmentScoring.js`.
  - The threshold table with its one-level critical downgrade (`src/utils/classification.js`).
  - The snapshot (`src/utils/createAssessmentSnapshot.js`).
- **App-side rules.**
  - The metadata splitter (`src/utils/transformers.js`).
  - Status mapping and date pick (`teamAssignment.service.js`).
  - Assignment filtering and categorisation (`useUserAssessments.js`).
  - The listener table of the event bus (`src/events/index.js`), a class whose methods
    update the table in place.
- **Link matrix scripts** (`Matrix/*.py`).
  - The column scan that records (target, source) relationships.
  - `build_schema`, with its root/linked symmetry and mutual-link cleanup.
  - `build_json`.
  - Mutual-link breaking and `-root(...)` tagging, done in place on an array of entries.
  - `reextract_links.py`: the links table parser, dedup and cleanup.
- **Configuration builders and patchers.**
  - The `parse_ems_text.py` state machine, with its current SE/section/standard held as
    index paths into the list being built.
  - The CSV grouping and numeric sorting of `generate_ems_config_from_csv.py`.
  - The severity/criticality extraction and patch loops of `patch_config.cjs` and
    `patch_config.js`.

Each regular expression the scripts apply is written out as a scan that finds the match
the engine finds: the leftmost start, greedy and lazy runs, and the alternation order.
Where the code behaves differently from its comments, the model follows the code:

- `se_pattern` in `parse_ems_text.py` does not match "10. Patient Care". The name class
  allows no leading space after the dot.
- The standard pattern also matches a bare criterion line. It reads "1.1.1.1 text" as
  standard 1.1.1 with the statement ".1 text".
- `parse_section_title` looks for the SE token among the "-" parts without stripping them,
  so the spaced layout its docstring shows yields no title.
- The `(--)` removal in `transformers.js` does not rescan after a removal, so "((--)--)"
  keeps "(--)".

Shared pieces are their own modules:

- `Strings`: character classes, strip, split and join, ASCII case.
- `IdTokens`: the `\d+\.\d+\.\d+\.\d+` token.
- `Segments`: the segment loop of the three comparators.
- `SortedStrings` and `KeySort`: Python's `sorted`.
- `EmsConfig`: the configuration datatypes and `load_valid_ids`.
- `BlockText`, `Extraction` and `PatchLoop`: the parts common to the two patch scripts.

## Model

| member | source | states |
|---|---|---|
| Normalization.RootTagFrom | src/utils/normalization.js:16 | finds the leftmost position from which `-root(` … `)` runs to the end of the code without a line terminator, or reports that there is none |
| Normalization.StripRootTag | src/utils/normalization.js:16 | removing the `-root(...)` tail leaves a prefix of the code |
| Normalization.FirstToken | src/utils/normalization.js:18 | the first whitespace-separated token is a space-free prefix, cut exactly at the first whitespace character |
| Normalization.DropEmsPrefix | src/utils/normalization.js:11 | a leading `EMS_` is removed; a code without it is unchanged |
| Normalization.DropSePrefix | src/utils/normalization.js:12-14 | a code that does not start with `SE ` is unchanged |
| Normalization.NormalizeCriterionCode | src/utils/normalization.js:7-20 | empty input gives `""`; the result never contains whitespace and is never longer than the input |
| Normalization.NormalizeCode | src/utils/normalization.js:7-20 | a plain dotted code such as `1.1.1.1` normalises to itself |
| Normalization.NormalizeEmsPrefix | src/utils/normalization.js:3-11 | `EMS_1.1.1.1` normalises to `1.1.1.1` |
| Normalization.NormalizeSePrefix | src/utils/normalization.js:3-14 | `SE 1.1.1.1` normalises to `1.1.1.1` |
| Normalization.NormalizeRootTag | src/utils/normalization.js:15-16 | a code followed by a circular-link tag `-root(…)` normalises to the bare code |
| Normalization.NormalizeTrailingText | src/utils/normalization.js:3-18 | a code followed by a space and extra text normalises to the bare code |
| Normalization.CodeFinish | src/utils/normalization.js:16-18 | a dotted code survives the root-tag strip and the first-token cut unchanged |
| Normalization.ParseIntOr0 | src/utils/normalization.js:32-38 | an all-digit segment parses to its decimal value |
| Normalization.SegmentValues | src/utils/normalization.js:32-33 | one value per `.`-separated segment |
| Normalization.CompareCriterionCodes | src/utils/normalization.js:27-43 | the result is -1, 0 or 1, and it is 0 whenever both codes normalise to the same string |
| Normalization.CompareAntisymmetric | src/utils/normalization.js:27-43 | swapping the two codes negates the comparison |
| Normalization.SegmentValuesAppend | src/utils/normalization.js:32-33 | appending `.u` appends the value of `u` to the segment values |
| Normalization.CompareLastSegment | src/utils/normalization.js:23-41 | codes that differ only in their last segment compare numerically on it (so `1.2.1.4` > `1.2.1.1` and `1.10` > `1.9`) |
| Normalization.CompareMissingSegmentIsZero | src/utils/normalization.js:35-38 | a missing segment counts as 0, so `p` and `p.0` compare equal |
| Scoring.PercentBounds | src/utils/scoring.js:58 | a score no larger than its maximum gives a percent between 0 and 100 |
| Scoring.Points | src/utils/scoring.js:38-40 | a response is worth at most 2 points (FULL/FC/COMPLIANT 2, PARTIAL/PC/SUBSTANTIAL 1, otherwise 0) |
| Scoring.AnyCriticalFailureIff | src/utils/scoring.js:42-45 | the critical-fail flag is raised exactly when some critical criterion has a NON/NC/NON-COMPLIANT response |
| Scoring.EarnedBounded | src/utils/scoring.js:35-39 | the points earned never exceed twice the number of non-NA criteria |
| Scoring.CalculateStandardScore | src/utils/scoring.js:20-66 | a missing list gives the empty score; maxScore is 2 per non-NA criterion; criticalFail holds iff some critical criterion is non-compliant, and then totalScore and percent are 0; otherwise totalScore is the points earned and percent their ratio to maxScore; the total lies in [0, maxScore] and the percent in [0, 100] |
| Scoring.AnyEntryFailedIff | src/utils/scoring.js:89-91 | a roll-up fails exactly when some present entry has criticalFail set |
| Scoring.RollupBounded | src/utils/scoring.js:83-92 | when every entry has 0 <= total <= max, so does the sum |
| Scoring.CalculateSectionScore | src/utils/scoring.js:74-102 | a missing list gives the empty score; otherwise totals and maxima are the sums over present entries (a missing field counts 0), criticalFail is the disjunction of the entries' flags, and percent is the exact ratio |
| Scoring.CalculateOverallScore | src/utils/scoring.js:110-113 | the same result as the section roll-up over the section results |
| Classification.FindLevel | src/utils/classification.js:32 | returns the first level (from the given one on) whose minimum the percent reaches, or none when the percent is below every minimum |
| Classification.BaseLevel | src/utils/classification.js:32-33 | the base level is a valid index into the four-level table |
| Classification.LevelIndex | src/utils/classification.js:36-38 | after the critical-failure downgrade the index is still within the table |
| Classification.ClassifyAssessment | src/utils/classification.js:23-45 | the final percent and the critical flag are the inputs (with defaults 0 and false), and the label is one of the four level names |
| Classification.Thresholds | src/utils/classification.js:11-33 | without a critical failure: Fully Compliant iff >= 85, Substantial iff 70..85, Partial iff 50..70, Non-Compliant iff < 50 |
| Classification.NegativeFallsBack | src/utils/classification.js:33 | a negative percent matches no level and falls back to Non-Compliant |
| Classification.CriticalDowngrade | src/utils/classification.js:17-38 | a critical failure moves down exactly one level, stopping at the lowest; 85% with a critical failure is Substantial Compliance |
| Classification.Monotonic | src/utils/classification.js:24-38 | a higher percent never gives a worse level |
| Classification.DefaultsAreNonCompliant | src/utils/classification.js:23 | with both parameters absent the label is Non-Compliant |
| AssessmentScoring.InsertAppend | src/hooks/useAssessmentScoring.js:22-32 | filling the criteria map over two runs of criteria equals filling it over their concatenation |
| AssessmentScoring.InsertLastWins | src/hooks/useAssessmentScoring.js:25-29 | a key is in the criteria map iff some criterion with a code normalises to it, and it maps to the last such criterion |
| AssessmentScoring.AddCriteria | src/hooks/useAssessmentScoring.js:24-30 | the inner `forEach` leaves the map filled from the given criteria in order |
| AssessmentScoring.BuildCriteriaMap | src/hooks/useAssessmentScoring.js:21-32 | the nested loops build the map from every criterion of every standard of every section, in document order |
| AssessmentScoring.UnscoredContributeNothing | src/hooks/useAssessmentScoring.js:49-51 | criteria with no graph score add nothing: no points, no maximum, no critical failure, no per-criterion score |
| AssessmentScoring.ScoresByIdKeys | src/hooks/useAssessmentScoring.js:51-52 | criteriaScores holds exactly the ids of criteria that have a graph score |
| AssessmentScoring.PointsBounded | src/hooks/useAssessmentScoring.js:55-58 | with every graph score's points in [0, 100], the points earned are at most 100 per scored criterion |
| AssessmentScoring.StandardWithinBounds | src/hooks/useAssessmentScoring.js:41-68 | with points in [0, 100], a standard's total lies in [0, maxScore] and its percent in [0, 100] |
| AssessmentScoring.ScoreStandard | src/hooks/useAssessmentScoring.js:39-78 | maxScore is 100 per scored criterion whose points are present; criticalFail holds iff some looked-up score has it; the total is the points earned, or 0 on a critical failure; the percent is the ratio; criteriaScores maps ids to their scores |
| AssessmentScoring.StandardEntries | src/hooks/useAssessmentScoring.js:80 | one roll-up entry per standard result, in order |
| AssessmentScoring.SectionEntries | src/hooks/useAssessmentScoring.js:89 | one roll-up entry per section result, in order |
| AssessmentScoring.ScoreSection | src/hooks/useAssessmentScoring.js:38-87 | a section result holds one standard result per standard, in order, and their section roll-up |
| AssessmentScoring.ScoreAssessment | src/hooks/useAssessmentScoring.js:18-97 | the criteria map as above, one section result per section, and the overall result is the roll-up of the section results |
| AssessmentScoring.UseAssessmentScoring | src/hooks/useAssessmentScoring.js:18-97 | the same, with criterion codes normalised by the normalisation function |
| Snapshot.CreateAssessmentSnapshot | src/utils/createAssessmentSnapshot.js:10-29 | no result gives no snapshot; otherwise the overall figures are copied (missing ones become 0, the flag false), the timestamp is the supplied clock value, and the breakdown has one entry per section, in order, copying id, percent, total, maximum and flag |
| Snapshot.NoSectionsEmptyBreakdown | src/utils/createAssessmentSnapshot.js:13-20 | a result without sections gives an empty breakdown |
| Snapshot.BreakdownRoundTrip | src/utils/createAssessmentSnapshot.js:15-26 | snapshotting a result rebuilt from a snapshot reproduces the same figures and breakdown |
| Transformers.MapValueTypeToInputType | src/utils/transformers.js:89-108 | the input type is one of five; `select` iff there are options or the type is BOOLEAN/TRUE_ONLY; `number` iff no options and a numeric type; `date` iff DATE; `textarea` iff LONG_TEXT (each without options); `text` otherwise |
| Transformers.DropTrailingDashes | src/utils/transformers.js:34 | a trailing `--` is removed and nothing else is |
| Transformers.CleanHeaderName | src/utils/transformers.js:34 | the cleaned header name is no longer than the name and carries no surrounding whitespace |
| Transformers.MarkerRemoved | src/utils/transformers.js:34 | removing every `(--)` drops the first one, with no `(--)` before it, and goes on after it |
| Transformers.CleanEnclosedMarker | src/utils/transformers.js:34 | a header written `Title(--)`, with no other marker, is cleaned to the trimmed title |
| Transformers.CleanTrailingMarker | src/utils/transformers.js:22-34 | a header written as `Title--` (without `(--)`) is cleaned to the trimmed title |
| Transformers.OptionsOf | src/utils/transformers.js:45-59 | an option set gives one option per entry; a boolean element without options gets the Yes/No pair |
| Transformers.FieldOf | src/utils/transformers.js:45-67 | a field keeps the element's id and compulsory flag; a field with options is a select; a boolean element is a select with options; a name ending in `comment` is labelled `Comment`, any other name is kept |
| Transformers.AllFieldsEmpty | src/utils/transformers.js:29-74 | subsections that each hold a field have no fields in total only when there are none |
| Transformers.Close | src/utils/transformers.js:29-74 | pushing a non-empty open subsection keeps every pushed subsection non-empty and of known origin, and appends its fields |
| Transformers.OpenHeader | src/utils/transformers.js:36-41 | a header element opens a subsection with its id and cleaned name |
| Transformers.GroupsHeader | src/utils/transformers.js:25-41 | at a header the open subsection is emitted when it has a field, and the header opens the next one |
| Transformers.GroupsField | src/utils/transformers.js:42-67 | at any other element its field joins the open subsection |
| Transformers.GroupsFinish | src/utils/transformers.js:71-74 | after the last element the open subsection is emitted exactly when it has a field |
| Transformers.GroupsHead | src/utils/transformers.js:6-74 | an open subsection that already has a field is emitted first, with its id and name |
| Transformers.FirstIsDefault | src/utils/transformers.js:6-10 | when the first element is a field, the first subsection is the default one: id `default-` + the section id, the section display name, that field first |
| Transformers.FieldsStep | src/utils/transformers.js:17-68 | one more element adds its field, or nothing when it is a header |
| Transformers.Absorb | src/utils/transformers.js:17-69 | one element: a header pushes the open subsection when it has fields and opens its own subsection with its id and cleaned name; any other element appends its field to the open subsection; the fields pushed plus the open fields are the fields of the elements read |
| Transformers.SplitSection | src/utils/transformers.js:5-79 | the subsections are exactly `Subsections`: the default subsection, then one per header, each with the fields up to the next header, the empty ones dropped, and the `No Fields` placeholder when none is left; together they hold exactly the fields of the non-header elements, in order |
| Transformers.Finish | src/utils/transformers.js:71-79 | the open subsection is pushed when it has fields; with none pushed at all the `No Fields` placeholder is the only subsection |
| Transformers.TransformMetadata | src/utils/transformers.js:1-87 | no metadata or no sections gives `[]`; otherwise one category per section, with its id and display name, and the subsections `SplitSection` computes for it |
| TeamAssignment.MapStatus | src/services/assessment/teamAssignment.service.js:12-23 | the code always starts with `FAC_ASS_ASSIGN_`; a stored code with that prefix is returned as is; otherwise ACCEPTED iff COMPLETED, CANCELLED iff CANCELLED, PENDING for every other enrollment status |
| TeamAssignment.FindValue | src/services/assessment/teamAssignment.service.js:65-67 | finds a data value for the element iff one exists, and what it finds is one of them, for that element |
| TeamAssignment.FirstStored | src/services/assessment/teamAssignment.service.js:64-69 | no stored code exactly when no event has a data value for the element |
| TeamAssignment.StoredStatusCode | src/services/assessment/teamAssignment.service.js:62-70 | without a status element or without events no code is stored; otherwise the loop returns the first event's stored value |
| TeamAssignment.Take10 | src/services/assessment/teamAssignment.service.js:35-38 | `slice(0, 10)` is the prefix of length min(10, length) |
| TeamAssignment.Earliest | src/services/assessment/teamAssignment.service.js:31-34 | picks a dated event with the least date, the first among equals, or none when no event is dated |
| TeamAssignment.EarliestMoves | src/services/assessment/teamAssignment.service.js:31-33 | a strictly earlier event appended after the current minimum becomes the new strict minimum |
| TeamAssignment.FirstAfterSort | src/services/assessment/teamAssignment.service.js:31-34 | the event the sort puts first: with every event dated, the one with the least date and the first among equals; with at most one dated event and some undated one, the first event, as the stable sort keeps the order when every comparison is NaN |
| TeamAssignment.ExtractDate | src/services/assessment/teamAssignment.service.js:29-39 | with every event dated, the first ten characters of the least event date; with at most one dated event, those of the first event's date when it is dated, else the fallback; without events the first ten characters of the enrollment date, else the incident date, else the clock reading; never longer than ten |
| TeamAssignment.OrgUnitOf | src/services/assessment/teamAssignment.service.js:79 | the org-unit id when non-empty; else the `id` of an org-unit object when non-empty; else the org-unit reference as given |
| TeamAssignment.ToAssignment | src/services/assessment/teamAssignment.service.js:72-84 | the event id is the enrollment id, else the tracked entity; the schedule id is the tracked entity; the status is the mapped enrollment status (no status element is configured); the sort date is the extracted date; the org unit is as above; the attributes default to `[]`; the name, facility, parent name and enrollment date are copied |
| TeamAssignment.GetUserAssignmentsDomain | src/services/assessment/teamAssignment.service.js:55-90 | one record per enrollment, in order, each with all ten fields as `ToAssignment` states |
| Events.Occurrences | src/events/index.js:16-21 | a callback occurs at most as often as the list is long, and zero times exactly when it is absent |
| Events.Without | src/events/index.js:21 | `filter(l => l !== callback)` keeps an ordered sub-list holding exactly the other callbacks, each as many times as before |
| Events.WithoutCounts | src/events/index.js:21 | the filter keeps the count of every other callback |
| Events.AppendOccurrences | src/events/index.js:16 | pushing a callback raises its count by one and leaves the others |
| Events.EventBus.constructor | src/events/index.js:8-10 | a new bus has no listeners |
| Events.EventBus.On | src/events/index.js:12-17 | the callback is appended to the event's list (created if missing); other events are unchanged |
| Events.EventBus.Off | src/events/index.js:19-22 | an unknown event leaves the table as it was; otherwise the event's list loses every copy of the callback, and other events are unchanged |
| Events.EventBus.Emit | src/events/index.js:24-27 | one call per registered listener, in registration order, each with the same data; none for an unknown event |
| Events.RegisteredTwiceCalledTwice | src/events/index.js:12-26 | registering a callback twice makes it occur, and so be called, twice more |
| Events.OnThenOff | src/events/index.js:12-22 | `off` after `on` removes the callback and restores every other callback's count |
| UserAssessments.ScheduleIds | src/hooks/useUserAssessments.js:77 | the schedule ids are duplicate-free and are exactly the assignments' schedule ids |
| UserAssessments.LastIndex | src/hooks/useUserAssessments.js:88-91 | the last schedule with the given id, or none when no schedule has it |
| UserAssessments.ScheduleMapLastWins | src/hooks/useUserAssessments.js:88-91 | the schedule map holds an id iff some schedule has it, and maps it to the last such schedule |
| UserAssessments.BuildScheduleMap | src/hooks/useUserAssessments.js:88-91 | the `forEach` loop builds that schedule map |
| UserAssessments.Enrich | src/hooks/useUserAssessments.js:94-103 | the enriched record keeps the assignment, carries its schedule exactly when the map has one (an empty object otherwise), and sets each of the five flags exactly when the status code is the matching one |
| UserAssessments.FlagsExclusive | src/hooks/useUserAssessments.js:98-102 | at most one of the five status flags is set |
| UserAssessments.EnrichAll | src/hooks/useUserAssessments.js:94-103 | one enriched record per assignment, in order |
| UserAssessments.Filtered | src/hooks/useUserAssessments.js:108-120 | an ordered sub-list holding exactly the records that pass the three option filters |
| UserAssessments.DeclinedDropped | src/hooks/useUserAssessments.js:113-115 | without includeDeclined no declined record survives |
| UserAssessments.PastDropped | src/hooks/useUserAssessments.js:116-118 | without includePast no record dated before today survives |
| UserAssessments.CompletedDropped | src/hooks/useUserAssessments.js:110-112 | without includeCompleted no confirmed record dated before today survives |
| UserAssessments.Upcoming | src/hooks/useUserAssessments.js:123-127 | an ordered sub-list of exactly the records dated today or later that are pending or accepted |
| UserAssessments.Past | src/hooks/useUserAssessments.js:129-132 | an ordered sub-list of exactly the records dated before today or completed |
| UserAssessments.PendingOf | src/hooks/useUserAssessments.js:134-136 | an ordered sub-list of exactly the pending records |
| UserAssessments.UpcomingPastDisjoint | src/hooks/useUserAssessments.js:123-132 | no record is both upcoming and past |
| UserAssessments.PendingNotPastIsUpcoming | src/hooks/useUserAssessments.js:123-136 | a pending record dated today or later is upcoming |
| UserAssessments.FetchUserAssessments | src/hooks/useUserAssessments.js:58-164 | no user gives the no-user outcome; otherwise schedules are fetched only for a non-empty id list, assignments are enriched, filtered and categorised as above, and each statistic is the size of its list |
| UserAssessments.FirstWithEvent | src/hooks/useUserAssessments.js:198 | the first record with the event id, or none when no record has it |
| UserAssessments.GetAssignmentDetails | src/hooks/useUserAssessments.js:197-199 | the first loaded record with the requested event id, and nothing exactly when there is none |
| PyCodes.SegmentValue | Matrix/apply_correct_hierarchy.py:14 | an all-digit segment is its decimal value, any other segment 0 |
| PyCodes.SegmentValues | Matrix/apply_correct_hierarchy.py:14-15 | one value per `.`-separated segment, each as above |
| PyCodes.CompareNormalized | Matrix/apply_correct_hierarchy.py:12-22 | the result is -1, 0 or 1, and equal normal forms compare 0 |
| PyCodes.CompareNormalizedAntisymmetric | Matrix/apply_correct_hierarchy.py:12-22 | swapping the operands negates the comparison |
| PyCodes.CompareNormalizedZero | Matrix/apply_correct_hierarchy.py:17-22 | two normal forms compare 0 iff they are equal or agree on every segment value, a missing segment counting 0 |
| PyCodes.Tag | Matrix/apply_correct_hierarchy.py:59 | the tag `{l}-root({l})` starts with the link and has length 2·len + 7 |
| PyCodes.TagMarkerAt | Matrix/apply_correct_hierarchy.py:7-59 | in the tag of a link free of `-root`, the first `-root` starts right after the link |
| PyCodes.TaggedLinks | Matrix/apply_correct_hierarchy.py:56-62 | tagging keeps the number of links |
| PyCodes.TaggedLinksAt | Matrix/apply_correct_hierarchy.py:57-61 | each link is tagged on its own: tagged when it compares below its owner, else kept |
| PyCodes.TagBackwardLinks | Matrix/apply_correct_hierarchy.py:55-62 | the inner loop builds the tagged list of the entry's links |
| PyCodes.TagPass | Matrix/apply_correct_hierarchy.py:53-62 | in place, every entry keeps its code and gets its links tagged against that code |
| CorrectHierarchy.BeforeFirstClean | Matrix/apply_correct_hierarchy.py:7 | the text before the first `-root` contains no `-root` |
| CorrectHierarchy.NormalizeCode | Matrix/apply_correct_hierarchy.py:5-7 | empty gives empty; a code without `-root` is only stripped; the normal form contains no `-root` and has no surrounding whitespace |
| CorrectHierarchy.NormalizeDropsTail | Matrix/apply_correct_hierarchy.py:5-7 | everything from the first `-root` on is dropped and the rest is stripped |
| CorrectHierarchy.NormalizeIdempotent | Matrix/apply_correct_hierarchy.py:5-7 | normalising twice is normalising once |
| CorrectHierarchy.NormalizeTag | Matrix/apply_correct_hierarchy.py:7-59 | the tag of a normal form normalises back to it |
| CorrectHierarchy.CompareCodes | Matrix/apply_correct_hierarchy.py:9-22 | the result is -1, 0 or 1, and codes with the same normal form compare 0 |
| CorrectHierarchy.CompareAntisymmetric | Matrix/apply_correct_hierarchy.py:9-22 | swapping the codes negates the comparison |
| CorrectHierarchy.LinkMapOf | Matrix/apply_correct_hierarchy.py:26 | the link map has a key for exactly the entries' codes |
| CorrectHierarchy.KeptLinksIsFilter | Matrix/apply_correct_hierarchy.py:31-50 | the kept links are the normalised links filtered by the keep rule |
| CorrectHierarchy.KeptLinksSpec | Matrix/apply_correct_hierarchy.py:33-49 | the kept links are an ordered sub-list of the normalised links; every non-mutual link is kept; a kept mutual link points to a larger code |
| CorrectHierarchy.MutualKeptOnce | Matrix/apply_correct_hierarchy.py:35-47 | of two codes linking each other, at most one keeps its link to the other |
| CorrectHierarchy.BreakMutualLinks | Matrix/apply_correct_hierarchy.py:30-50 | the inner loop builds the kept-link list |
| CorrectHierarchy.TagOneShape | Matrix/apply_correct_hierarchy.py:57-61 | a tagged normal form is either an untagged normal form not below its owner, or the tag of a lower code that normalises back to it |
| CorrectHierarchy.FinalLinksShape | Matrix/apply_correct_hierarchy.py:29-62 | after both passes every link of an entry has that final shape |
| CorrectHierarchy.BreakMutualPass | Matrix/apply_correct_hierarchy.py:29-50 | in place, every entry keeps its code and gets its kept links |
| CorrectHierarchy.TransformLinks | Matrix/apply_correct_hierarchy.py:24-64 | every entry keeps its code, and its links are its original links with mutual backward links purged and then backward links tagged, judged against the link map of the original lists |
| RootTags.NormalizeCode | Matrix/apply_root_tags.py:5-11 | empty gives empty; the normal form contains no `_` and has no surrounding whitespace; a code without `_` is just stripped |
| RootTags.NormalizeDropsPrefix | Matrix/apply_root_tags.py:8-11 | a prefix up to a `_` is dropped, keeping the stripped part after it |
| RootTags.NormalizeIdempotent | Matrix/apply_root_tags.py:5-11 | normalising twice is normalising once |
| RootTags.CompareCodes | Matrix/apply_root_tags.py:13-26 | the result is -1, 0 or 1, and codes with the same normal form compare 0 |
| RootTags.CompareAntisymmetric | Matrix/apply_root_tags.py:13-26 | swapping the codes negates the comparison |
| RootTags.TransformFile | Matrix/apply_root_tags.py:36-46 | in place, every entry keeps its code and the number and order of its links, and each link is rewritten to `{link}-root({link})` exactly when it compares below the entry's code |
| IdTokens.DottedEnd | Matrix/extract_and_build.py:25 | a match of `\d+(\.\d+)*` with the given number of parts ends on a digit, is not followed by a digit, and covers at least the first digit run |
| IdTokens.IdAtStartWithBoundary | Matrix/extract_and_build.py:38-40 | a code recognised at the start of the line is a prefix of it whose match ends where the four-part pattern ends |
| IdTokens.SearchDotted | Matrix/extract_and_build.py:34 | finds the leftmost position from which the pattern matches, or reports that none does |
| IdTokens.FindAllNone | Matrix/extract_and_build.py:45-52 | a line where the pattern matches nowhere yields no codes |
| ColumnScan.Classify | Matrix/extract_and_build.py:29-49 | a target line opens with a valid code followed by more than 10 stripped characters that do not open with a code; a line is skipped exactly when it is blank, a page marker, a header or holds no code |
| ColumnScan.StepSpec | Matrix/extract_and_build.py:29-55 | one line keeps the target valid and every relationship between two distinct valid codes, never drops a relationship, adds only relationships from the target it ends with, and changes the target only to the valid code it opens with |
| ColumnScan.SkippedLineUnchanged | Matrix/extract_and_build.py:31-36 | blank lines, lines with `--- Page` or `Criteria`, and lines without a code leave the state unchanged |
| ColumnScan.ScanValid | Matrix/extract_and_build.py:47-54 | every relationship found in the lines joins two distinct valid codes |
| ColumnScan.AddLinks | Matrix/extract_and_build.py:46-48 | the loop adds `(target, id)` for every valid id other than the target |
| ColumnScan.ScanSnoc | Matrix/extract_and_build.py:29 | one more line is one more step of the loop |
| ColumnScan.StepTarget | Matrix/extract_and_build.py:39-49 | a target line makes its code the current target and links it to the valid codes in the rest of the line |
| ColumnScan.StepLink | Matrix/extract_and_build.py:51-55 | any other line holding codes links them to the current target, if there is one |
| ColumnScan.ParseColumns | Matrix/extract_and_build.py:26-57 | the loop yields the relationships of the scan, each joining two distinct valid codes |
| ExtractAndBuild.IndexIn | Matrix/extract_and_build.py:70 | the position of a code in the visiting order, or the order's length when absent |
| ExtractAndBuild.EmptySets | Matrix/extract_and_build.py:62-63 | every valid code gets an empty `root` and an empty `linked_criteria` set |
| ExtractAndBuild.AddPair | Matrix/extract_and_build.py:65-67 | adding one relationship keeps "x in linked(y) iff y in root(x)" and records exactly the pairs added so far |
| ExtractAndBuild.AddRelationships | Matrix/extract_and_build.py:65-67 | after the loop, `linked_criteria` holds exactly the recorded sources and `root` exactly the recorded targets, symmetrically |
| ExtractAndBuild.AddingStart | Matrix/extract_and_build.py:62-65 | the empty sets are the starting state of the relationship loop |
| ExtractAndBuild.AddingDone | Matrix/extract_and_build.py:65-70 | the finished relationship loop is the starting state of the cleanup |
| ExtractAndBuild.DropSelf | Matrix/extract_and_build.py:73-74 | removing the visited code from its own sets starts its visit |
| ExtractAndBuild.VisitSource | Matrix/extract_and_build.py:77-85 | visiting a source that links back removes that back link and the matching root; otherwise nothing changes |
| ExtractAndBuild.FinishVisit | Matrix/extract_and_build.py:70-85 | after a code's visit the sets are those of one more visited code |
| ExtractAndBuild.VisitStep | Matrix/extract_and_build.py:77-85 | one source of the visited code, handled as above |
| ExtractAndBuild.CleanupStep | Matrix/extract_and_build.py:70-85 | one visit moves the state from i visited codes to i + 1, keeping root/linked symmetry |
| ExtractAndBuild.Collect | Matrix/extract_and_build.py:87-95 | the entries are strictly ascending by code, exist exactly for the codes with a non-empty root or linked set, and hold those sets as strictly sorted lists |
| ExtractAndBuild.FinalState | Matrix/extract_and_build.py:70-85 | after visiting every code, each set is its final value |
| ExtractAndBuild.BuildSchema | Matrix/extract_and_build.py:59-95 | the result is strictly ascending by code, has an entry exactly for each valid code whose final root or linked set is non-empty, and lists those final sets sorted |
| ExtractAndBuild.NoSelfLinks | Matrix/extract_and_build.py:73-74 | no code is in its own final linked or root set |
| ExtractAndBuild.NoMutualLinks | Matrix/extract_and_build.py:77-85 | after the cleanup no two codes list each other in linked_criteria |
| ExtractAndBuild.MutualPairKeepsFirst | Matrix/extract_and_build.py:77-85 | of a mutual pair, the code visited first keeps its link and the other loses it, so one link survives |
| ExtractAndBuild.OneWayLinkKept | Matrix/extract_and_build.py:65-85 | a one-way relationship between distinct codes survives, in linked and in root |
| ExtractAndBuild.RootLinkedSymmetric | Matrix/extract_and_build.py:65-85 | x is in linked(y) iff y is in root(x), after the cleanup too |
| ColumnHierarchy.AddOne | Matrix/rebuild_column_hierarchy.py:70-80 | one more relationship adds its two codes to the entries and its two links: the plain source to the target, the tagged target to the source |
| ColumnHierarchy.NoLinksOutside | Matrix/rebuild_column_hierarchy.py:70-74 | a code that occurs in no relationship has no links |
| ColumnHierarchy.Grown | Matrix/rebuild_column_hierarchy.py:70-80 | the sets after one more relationship are the sets of the larger relationship set |
| ColumnHierarchy.AddPair | Matrix/rebuild_column_hierarchy.py:71-80 | the loop body creates missing entries and adds both links, keeping the sets equal to those of the relationships seen |
| ColumnHierarchy.LinkSets | Matrix/rebuild_column_hierarchy.py:68-80 | after the loop, exactly the codes occurring in a relationship have an entry, each holding its plain sources and tagged targets |
| ColumnHierarchy.BuildJson | Matrix/rebuild_column_hierarchy.py:66-89 | the entries are strictly ascending by code, exist for exactly the codes occurring in some relationship, and hold their links as strictly sorted, duplicate-free lists |
| ColumnHierarchy.BothDirections | Matrix/rebuild_column_hierarchy.py:77-80 | for each (target, source), the target lists the plain source and the source lists `{target}-root({target})`, and both have entries |
| ColumnHierarchy.EntriesNonEmpty | Matrix/rebuild_column_hierarchy.py:70-80 | every entry has at least one link |
| ReextractLinks.CleanLine | Matrix/reextract_links.py:30 | the line with newlines turned into spaces and then stripped holds no newline and neither starts nor ends with whitespace |
| ReextractLinks.TrailingCode | Matrix/reextract_links.py:63 | a match of `\s+(id)\s*$` is a whole dotted code that starts after a position inside the string |
| ReextractLinks.TrailingCodeMatchesAtSpace | Matrix/reextract_links.py:63 | the match always starts at a whitespace character, which is what makes `line[:m.start()]` strictly shorter |
| ReextractLinks.Peel | Matrix/reextract_links.py:61-96 | peeling trailing codes ends on a text with no trailing code; the links only grow, and only valid codes are added |
| ReextractLinks.PeelKeepsStart | Matrix/reextract_links.py:61-69 | peeling a line that starts with a non-space keeps a non-empty prefix of it, so the description of a new item is never emptied by its links |
| ReextractLinks.PeelOne | Matrix/reextract_links.py:63-67 | one round of the `while True` loop shortens the text and leaves the final outcome of peeling unchanged |
| ReextractLinks.PeelLinks | Matrix/reextract_links.py:61-69 | the loop ends with exactly the text and links of the peeling specification |
| ReextractLinks.MainLine | Matrix/reextract_links.py:42-56 | a line opens an item only with a valid code at its start, then more than ten characters of text that do not start with another code |
| ReextractLinks.Continue | Matrix/reextract_links.py:79-106 | a continuation line keeps the item's code, only appends to its links, and every appended link is a valid code |
| ReextractLinks.Flushed | Matrix/reextract_links.py:57-109 | flushing keeps every item collected so far and appends the open one |
| ReextractLinks.StepSkips | Matrix/reextract_links.py:31-79 | empty lines, page markers, the header and page counters change nothing, and neither does a non-opening line while no item is open |
| ReextractLinks.StepOpens | Matrix/reextract_links.py:56-76 | an opening line flushes the open item and opens a new one with the detected code and the valid trailing links in line order |
| ReextractLinks.StepContinues | Matrix/reextract_links.py:79-106 | any other line with an item open updates the open item by the continuation rule and keeps the collected items |
| ReextractLinks.StepKeepsResults | Matrix/reextract_links.py:28-106 | a line never removes or changes an item already collected |
| ReextractLinks.StepValid | Matrix/reextract_links.py:28-106 | a line keeps every collected and open item's code and links among the valid codes |
| ReextractLinks.FlushedValid | Matrix/reextract_links.py:108-109 | flushing a valid state gives only valid items |
| ReextractLinks.ContinueValid | Matrix/reextract_links.py:79-106 | a continuation line keeps an item valid |
| ReextractLinks.ParseValid | Matrix/reextract_links.py:28-109 | every item collected from the whole file has a valid code and only valid links |
| ReextractLinks.Collapse | Matrix/reextract_links.py:121 | `re.sub(r'\s+', ' ', d)` is empty exactly when the input is, ends in a space exactly when the input ends in whitespace, has only single plain spaces, and is no longer than the input |
| ReextractLinks.CleanDescriptionIsClean | Matrix/reextract_links.py:121-123 | a cleaned description has single spaces only, no leading whitespace and no trailing space or `.;,` |
| ReextractLinks.Kept | Matrix/reextract_links.py:112-126 | the deduplicated items are drawn from the collected ones |
| ReextractLinks.KeptDistinct | Matrix/reextract_links.py:116-118 | no code appears twice among the kept items |
| ReextractLinks.FirstOccurrenceKept | Matrix/reextract_links.py:114-126 | the first item with a given code is kept exactly when its cleaned description is not empty |
| ReextractLinks.KeptIsFirst | Matrix/reextract_links.py:114-126 | every kept item is the first with its code and has a non-empty cleaned description |
| ReextractLinks.KeptSnocSkip | Matrix/reextract_links.py:116-125 | an item whose code was seen, or whose description cleans to nothing, adds nothing |
| ReextractLinks.KeptSnocKeep | Matrix/reextract_links.py:118-126 | a first occurrence whose description survives is appended |
| ReextractLinks.CleanOne | Matrix/reextract_links.py:114-126 | one iteration of the dedup loop keeps the seen set equal to the codes read so far and the output equal to the cleaned kept items so far |
| ReextractLinks.CleaningSkip | Matrix/reextract_links.py:116-125 | skipping an item preserves the loop invariant |
| ReextractLinks.CleaningKeep | Matrix/reextract_links.py:118-126 | keeping an item cleaned preserves the loop invariant |
| ReextractLinks.DedupAndClean | Matrix/reextract_links.py:111-128 | the output is, item by item, the kept items with the same code, the cleaned description and `sorted(set(links))` |
| ReextractLinks.StepLine | Matrix/reextract_links.py:28-106 | the imperative body for one line produces exactly the state of the line-step specification |
| ReextractLinks.CollectItems | Matrix/reextract_links.py:20-109 | the line loop and final flush collect exactly the specified items |
| ReextractLinks.CleanedValid | Matrix/reextract_links.py:111-128 | the cleaned items have distinct codes, valid codes and links, and non-empty clean descriptions |
| ReextractLinks.ParseLinks | Matrix/reextract_links.py:16-128 | parse_links returns the cleaned, deduplicated items: distinct codes, only valid codes and links, links sorted without repeats, descriptions non-empty and clean |
| EmsTextLines.SeName | parse_ems_text.py:11 | the SE name group starts with a letter, has at least six characters, all of them from the name class |
| EmsTextLines.SeMatch | parse_ems_text.py:11 | an SE heading match yields an all-digit number group and a name of at least six characters (the pattern is applied at line 113) |
| EmsTextLines.SectionMatch | parse_ems_text.py:13 | a section match always has a title group of at least two characters (a letter, then at least one more) (the pattern is applied at line 136) |
| EmsTextLines.StandardMatch | parse_ems_text.py:15 | a standard match yields a non-empty code (the pattern is applied at line 157) |
| EmsTextLines.CriterionSearch | parse_ems_text.py:17 | a criterion search yields a non-empty code, and finds nothing only when no position of the line starts a match (the pattern is searched at line 188) |
| EmsTextLines.CriterionLineMatchesStandard | parse_ems_text.py:15-17 | a line starting with a four-part code also matches the standard pattern, with the first three parts as the standard code (why criterion lines reach the standard branch first) |
| EmsTextLines.IntentSearch | parse_ems_text.py:18 | an "Intent of" match yields a non-empty matched text and a non-empty standard code (the pattern is searched at line 209) |
| EmsTextLines.FirstMarker | parse_ems_text.py:54 | the leftmost position where `Criterion Comments Recommendations.*$` matches, and none before it; none at all when absent |
| EmsTextLines.CutMarker | parse_ems_text.py:54 | the substitution removes the text from the first marker to the end of the line and leaves a text without a marker unchanged |
| EmsTextLines.SplitStandardAndIntent | parse_ems_text.py:42-56 | empty in, empty out; without the label the statement is only stripped; both parts come back stripped |
| EmsTextLines.SplitAtLabel | parse_ems_text.py:46-56 | with the label first found at `k`: the statement is the text before `k`, stripped; the intent is the text after the label and its whitespace, through `IntentPart` |
| EmsTextLines.LabelEnd | parse_ems_text.py:46 | `\s*` after the label takes every whitespace character and stops at the first other one |
| EmsTextLines.IntentPart | parse_ems_text.py:51-54 | the intent comes back stripped; without a comments marker it is the stripped text; with one, the stripped text before the first marker |
| EmsTextLines.TrimmedPrefixClean | parse_ems_text.py:46-50 | the statement before the first label, stripped, contains no label |
| EmsTextLines.StatementHasNoLabel | parse_ems_text.py:46-50 | the pure statement never contains "Standard Intent:" |
| EmsTextLines.CutMarkerClean | parse_ems_text.py:54 | on one line, the intent text after the substitution and strip contains no marker |
| EmsTextLines.IntentHasNoMarker | parse_ems_text.py:51-54 | for a one-line statement, the intent part never contains "Criterion Comments Recommendations" |
| EmsTextLines.Following | parse_ems_text.py:65-87 | the collection stops at or after its start and not past the last line |
| EmsTextLines.FollowingStop | parse_ems_text.py:72-82 | a blank line or a boundary ends the collection at once with nothing collected |
| EmsTextLines.FollowingSkip | parse_ems_text.py:76-78 | a page marker or a bare number is stepped over |
| EmsTextLines.FollowingTake | parse_ems_text.py:84-85 | any other line contributes its stripped text |
| EmsTextLines.FollowingNext | parse_ems_text.py:67-85 | past a line that does not stop it, the collection stops where it would stop from the next line |
| EmsTextLines.FollowingEnds | parse_ems_text.py:67-82 | the collection ends at the end of the lines or on a line that stops it |
| EmsTextLines.FollowingSpan | parse_ems_text.py:67-85 | no line before the stop point stops the collection |
| EmsTextLines.FollowingTexts | parse_ems_text.py:65-87 | the collected parts are exactly the stripped texts, in order, of the non-marker lines before the stop point |
| EmsTextLines.FollowingParts | parse_ems_text.py:72-84 | every collected part is non-blank, not a page marker and not a boundary |
| EmsTextLines.FollowingKeep | parse_ems_text.py:84-85 | keeping a line moves its text from the pending collection to the collected parts |
| EmsTextLines.CollectFollowingLines | parse_ems_text.py:58-87 | the loop returns the specified parts joined by single spaces and the index where it stopped, never before the start nor past the end |
| EmsTextModel.GrowsTrans | parse_ems_text.py:98-220 | growth composes: a run of accepted lines only ever extends what was recorded |
| EmsTextModel.GrowsRefl | parse_ems_text.py:99-110 | a skipped line leaves the list as it was, which counts as growth |
| EmsTextModel.CursorGrows | parse_ems_text.py:93-95 | the current SE, section and standard stay valid in any extension of the list (the cursors are read at lines 132, 151 and 183) |
| EmsTextModel.WithSe | parse_ems_text.py:130-133 | replacing one SE changes that entry only and keeps the length |
| EmsTextModel.WithStandard | parse_ems_text.py:219 | the standard at the path becomes the new one and the path stays valid |
| EmsTextModel.AddCriterion | parse_ems_text.py:205 | the criteria of the standard at the path gain exactly the new criterion at the end |
| EmsTextModel.AddStandard | parse_ems_text.py:179 | the new standard sits at the end of its section and its path is returned |
| EmsTextModel.AddSection | parse_ems_text.py:147 | the new section sits at the end of its SE and its path is returned |
| EmsTextModel.StandardReplaced | parse_ems_text.py:219 | replacing a standard by a well-formed one with the same id keeps the section well-formed, and grows it when the standard grows |
| EmsTextModel.SectionReplaced | parse_ems_text.py:147-179 | replacing a section by a well-formed one with the same id keeps the SE well-formed, and grows it when the section grows |
| EmsTextModel.SeReplaced | parse_ems_text.py:147-219 | replacing an SE by a well-formed one with the same id keeps the list well-formed and its set of ids, and grows it when the SE grows |
| EmsTextModel.WithStandardOk | parse_ems_text.py:219 | a well-formed replacement standard keeps the list well-formed with the same ids |
| EmsTextModel.SectionExtended | parse_ems_text.py:163-179 | appending a well-formed standard whose id is new keeps its section well-formed and grows it |
| EmsTextModel.AddStandardOk | parse_ems_text.py:161-179 | appending a well-formed standard with a new id keeps the list well-formed, with the same SE ids, and grows it |
| EmsTextModel.SeExtended | parse_ems_text.py:141-147 | appending a well-formed section whose id is new keeps its SE well-formed and grows it |
| EmsTextModel.AddSectionOk | parse_ems_text.py:140-147 | appending a well-formed section with a new id keeps the list well-formed, with the same SE ids, and grows it |
| EmsTextModel.AddSeOk | parse_ems_text.py:117-125 | appending a well-formed SE with an unseen id keeps the list well-formed, grows it and adds exactly its id to the ids seen |
| EmsTextModel.CriterionAdded | parse_ems_text.py:193-205 | appending a well-formed criterion with a new id keeps its standard well-formed and grows it |
| EmsTextModel.AddCriterionOk | parse_ems_text.py:192-205 | appending a well-formed criterion with a new id keeps the list well-formed, with the same SE ids, and grows it |
| EmsTextModel.SetIntentOk | parse_ems_text.py:216-219 | filling an empty intent keeps the list well-formed, with the same SE ids, and counts as growth |
| ParseEmsText.StoredName | parse_ems_text.py:121 | the stored SE name of a stripped name is as long as the name and upper-case |
| ParseEmsText.SeCandidate | parse_ems_text.py:113-117 | an SE heading is accepted exactly when the pattern matches and the id is 1..10; the accepted name is stripped and longer than five characters |
| ParseEmsText.WithContinuation | parse_ems_text.py:166-167 | no continuation text leaves the statement alone; with an empty statement the continuation becomes the statement; otherwise both are joined by a space and stripped, which for stripped texts is the plain join |
| ParseEmsText.NewStandard | parse_ems_text.py:171-178 | a new standard has the matched id, no criteria, and its statement and intent are the two parts of `SplitStandardAndIntent`: a statement without "Standard Intent:", and without the label the stripped text and no intent |
| ParseEmsText.JoinPresent | parse_ems_text.py:215 | both texts joined by a space then stripped, one text alone stripped, or empty when both are; for stripped texts no stripping is needed |
| ParseEmsText.SkipPast | parse_ems_text.py:168-220 | the consumed-lines mark never moves back and covers the lines up to where the collection stopped |
| ParseEmsText.FindFirst | parse_ems_text.py:130-184 | the `for … break` lookup finds the first matching entry, and finds none only when no entry matches |
| ParseEmsText.SeIndex | parse_ems_text.py:130-133 | the position of the first SE with the id, and none only when no SE has it |
| ParseEmsText.SeCursor | parse_ems_text.py:130-133 | an SE heading of a seen id moves only the current SE; the cursor stays valid |
| ParseEmsText.SeBranch | parse_ems_text.py:112-133 | the branch takes the line exactly when the SE id is accepted and unseen (`SeAccepts`): it appends a new SE with the upper-case name, records the id and points the cursor at it alone; otherwise nothing changes but the current SE, which moves to a seen id (`SeCursor`) |
| ParseEmsText.SectionBranch | parse_ems_text.py:135-154 | the branch takes the line exactly when it matches with a current SE and the id starts with "<se_id>." (`SectionAccepts`); it appends the section when new, else selects it, and clears the current standard (`SectionDone`) |
| ParseEmsText.EnterSection | parse_ems_text.py:141-152 | the section with the id is selected when present, else appended with the title; the list stays well-formed and only grows |
| ParseEmsText.StandardBranch | parse_ems_text.py:156-185 | the branch takes the line exactly when it matches under a current section, the id starts with the section id and has three parts (`StandardAccepts`); a new standard gets the statement with its continuation lines, which are then marked consumed; a known one is selected (`StandardDone`) |
| ParseEmsText.EnterStandard | parse_ems_text.py:163-184 | a known standard is selected and nothing is consumed; a new one is appended with its continuation text and the consumed mark moves past that text |
| ParseEmsText.AppendStandard | parse_ems_text.py:165-179 | the new standard is built from the statement and its continuation text and appended; the consumed mark moves only when there was continuation text |
| ParseEmsText.CriterionBranch | parse_ems_text.py:187-206 | the branch takes the line exactly when a criterion code under the current standard's id is found; a new id appends a criterion with the description (or the next line), the CRITICAL flag of this or the next line, severity 3 and the fixed category |
| ParseEmsText.AddCriterionIfNew | parse_ems_text.py:193-205 | a criterion whose id is already there changes nothing; otherwise it is appended |
| ParseEmsText.IntentBranch | parse_ems_text.py:208-220 | only an "Intent of" naming the current standard acts: it fills the intent text only when that was empty and the combined text is not, and marks the continuation lines consumed |
| ParseEmsText.LaterBranches | parse_ems_text.py:156-220 | the standard branch acts when it accepts the line; otherwise the criterion branch when it accepts, with the cursor and the consumed mark unchanged; otherwise the intent branch, with the cursor unchanged (`LaterDone`); the list stays well-formed and growing |
| ParseEmsText.LineStep | parse_ems_text.py:112-220 | a new SE heading ends the turn; otherwise the current SE may move, a section heading ends the turn, and otherwise the later branches act on the unchanged list (`LineDone`); the list stays well-formed (SE ids 1..10 and unique, ids prefixed by their parent's and unique within it) and only grows |
| ParseEmsText.FileStep | parse_ems_text.py:98-110 | a consumed, blank, page-marker or all-digit line leaves the state unchanged; any other line, stripped, goes through the branches as `LineStep` states |
| ParseEmsText.ParseFile | parse_ems_text.py:93-220 | a file starts with no current SE, section or standard and nothing consumed, and each line moves the state by one `StepDone`: unchanged when passed over, the branches otherwise; the list stays well-formed and only grows |
| ParseEmsText.PassedOverUnchanged | parse_ems_text.py:102-110 | lines that are all blank, page markers or bare page numbers leave the state as it was |
| ParseEmsText.PermutationOk | parse_ems_text.py:223 | reordering a well-formed list keeps it well-formed |
| ParseEmsText.ParseText | parse_ems_text.py:5-224 | the result is well-formed and sorted by strictly increasing SE id |
| EmsConfig.NewCriterion | parse_ems_text.py:198-204 | a criterion read from the text gets the matched id, description and CRITICAL flag, severity 3 and the fixed category |
| EmsConfig.IdCollected | Matrix/reextract_links.py:9-13 | every criterion's id, at any depth of the configuration, is among the valid ids |
| EmsConfig.IdFound | Matrix/reextract_links.py:9-13 | every valid id is the id of some criterion of some standard of some section of some SE |
| EmsConfig.StandardsValidIds | Matrix/reextract_links.py:11-13 | the loop over standards collects exactly their criteria's ids |
| EmsConfig.SectionsValidIds | Matrix/reextract_links.py:10-13 | the loop over sections collects exactly the ids of their standards' criteria |
| EmsConfig.LoadValidIds | Matrix/reextract_links.py:5-14 | load_valid_ids (the same function in Matrix/extract_and_build.py:6-15 and Matrix/rebuild_column_hierarchy.py:6-15) returns exactly the set of criterion ids of the configuration |
| CsvConfig.IndexOf | scripts/generate_ems_config_from_csv.py:26 | `parts.index(x)` is the position of the first `x`, and fails only when `x` is absent |
| CsvConfig.TitleOfPart | scripts/generate_ems_config_from_csv.py:27-34 | a title read from a part is non-empty and stripped; a blank part gives none |
| CsvConfig.TitleOfParts | scripts/generate_ems_config_from_csv.py:25-34 | no title without the SE token among the parts; a title found is non-empty and stripped |
| CsvConfig.ParseSectionTitle | scripts/generate_ems_config_from_csv.py:16-34 | an empty name, or one without the SE token as a "-" part, gives no title; any title is non-empty and stripped |
| CsvConfig.ParseSectionTitleOf | scripts/generate_ems_config_from_csv.py:16-34 | on a name laid out as `… - SE<n> - <SE name> - <section id> <title> - …`, the title comes back exactly |
| CsvConfig.TitleFromSplit | scripts/generate_ems_config_from_csv.py:24-33 | the title is read from the part two after the first SE token |
| CsvConfig.NameParts | scripts/generate_ems_config_from_csv.py:24 | a name joined from two or more parts without "-" is non-empty and splits back into the same parts |
| CsvConfig.SectionPartTitle | scripts/generate_ems_config_from_csv.py:31-33 | a `"<section id> <title>"` part gives the title back |
| CsvConfig.SeNumber | scripts/generate_ems_config_from_csv.py:55-58 | `SE(\d+)` matches exactly when the token starts "SE" and a digit, and the number is the value of that digit run |
| CsvConfig.ParseNumber | scripts/generate_ems_config_from_csv.py:61-64 | the number part is accepted exactly when it has four "."-parts, all digits |
| CsvConfig.ParseParts | scripts/generate_ems_config_from_csv.py:50-65 | an accepted code has at least five parts, the SE token third with its number, the stripped SE name fourth and four all-digit numbers fifth |
| CsvConfig.ParseCode | scripts/generate_ems_config_from_csv.py:47 | only codes starting "CLINIC-Standards-SE" are accepted |
| CsvConfig.IdsNest | scripts/generate_ems_config_from_csv.py:67-69 | the section id prefixes the standard id, which prefixes the criterion id, and each splits back into its numbers |
| CsvConfig.ParseCodeOf | scripts/generate_ems_config_from_csv.py:47-65 | a well-formed code `CLINIC-Standards-SE<n>-<name>-a.b.c.d` is accepted with exactly those parts |
| CsvConfig.ParsePartsOf | scripts/generate_ems_config_from_csv.py:50-65 | five parts with an SE token and a four-number part are read back as that key |
| CsvConfig.CodeSplit | scripts/generate_ems_config_from_csv.py:50 | parts without "-" come back from splitting their join |
| CsvConfig.NumberPart | scripts/generate_ems_config_from_csv.py:61-62 | the number part `a.b.c.d` has nothing to strip and splits back into its four numbers |
| CsvConfig.SeToken | scripts/generate_ems_config_from_csv.py:54-58 | `"SE" + n` reads `n` back as the SE number |
| CsvConfig.Accept | scripts/generate_ems_config_from_csv.py:43-64 | a row passes the filter exactly when its stripped code parses; it carries the key, the stripped name and the stripped description |
| CsvConfig.AcceptedRows | scripts/generate_ems_config_from_csv.py:42-64 | the filter never adds rows |
| CsvConfig.FindBy | scripts/generate_ems_config_from_csv.py:71-101 | the dictionary lookup finds the first entry under the key, and none only when no entry has it |
| CsvConfig.Lookup | scripts/generate_ems_config_from_csv.py:71-101 | what the lookup returns is stored under the key asked for |
| CsvConfig.LookupPut | scripts/generate_ems_config_from_csv.py:71-113 | storing under one key changes what that key maps to and no other key |
| CsvConfig.AddToStandard | scripts/generate_ems_config_from_csv.py:101-123 | setdefault keeps an existing standard's id and intent; an empty statement is backfilled from a non-empty description; the criterion is appended |
| CsvConfig.AddToSection | scripts/generate_ems_config_from_csv.py:86-98 | setdefault keeps an existing section's id; a title already set is kept, otherwise this row's title (if any) is taken |
| CsvConfig.AddToSe | scripts/generate_ems_config_from_csv.py:71-83 | setdefault keeps the first SE entry's id and name; later names are ignored |
| CsvConfig.AddRow | scripts/generate_ems_config_from_csv.py:71-123 | one row adds its SE id to the keys of `se_map` and nothing else |
| CsvConfig.AddRowSection | scripts/generate_ems_config_from_csv.py:86-98 | a row changes exactly the section its code names |
| CsvConfig.AddRowStandard | scripts/generate_ems_config_from_csv.py:101-123 | a row changes exactly the standard its code names |
| CsvConfig.FirstTitleAppend | scripts/generate_ems_config_from_csv.py:95-98 | the first title found stays; before one is found a new row may supply it |
| CsvConfig.FirstDescriptionAppend | scripts/generate_ems_config_from_csv.py:105-113 | the first non-empty description stays; before one is found a new row may supply it |
| CsvConfig.GroupSe | scripts/generate_ems_config_from_csv.py:71-83 | an SE is in `se_map` exactly when some accepted row names it, and its name is that of the first such row |
| CsvConfig.GroupSection | scripts/generate_ems_config_from_csv.py:85-98 | a section exists exactly when some row names it; its title is the first title its rows yield |
| CsvConfig.GroupStandard | scripts/generate_ems_config_from_csv.py:100-123 | a standard exists exactly when some row names it; its statement is the first non-empty description, its intent empty, and its criteria are its rows' criteria in file order |
| CsvConfig.FinishSection | scripts/generate_ems_config_from_csv.py:133-143 | the standards are reordered (same multiset) into numeric id order, and a title never set becomes "" |
| CsvConfig.FinishSe | scripts/generate_ems_config_from_csv.py:129-151 | an output SE keeps the id and name, and has as many sections, in numeric id order |
| CsvConfig.FinishSeSections | scripts/generate_ems_config_from_csv.py:132-143 | the output sections are the finished drafts, each once: sorting only reorders them |
| CsvConfig.MapPermutation | scripts/generate_ems_config_from_csv.py:132-137 | finishing each element of a reordered list gives a reordering of the finished list |
| CsvConfig.GroupRows | scripts/generate_ems_config_from_csv.py:40-123 | the row loop builds exactly the grouping of the accepted rows in file order |
| CsvConfig.Normalise | scripts/generate_ems_config_from_csv.py:125-153 | SEs come out in strictly ascending id order, one per key of `se_map`, each finished from its entry |
| CsvConfig.BuildConfigFromCsv | scripts/generate_ems_config_from_csv.py:37-153 | the configuration has one SE per SE id named by an accepted row, in strictly ascending order, each the finished grouping of its rows |
| BlockText.Leftmost | patch_config.cjs:27 | the leftmost position where a match starts, with none before it, and none at all only when no position matches |
| BlockText.LeftmostIs | patch_config.cjs:27 | a matching position with none before it is the one the leftmost search returns |
| BlockText.SpaceRun | patch_config.cjs:27-47 | a greedy `\s*` takes every whitespace character and stops at the first other one |
| BlockText.SpaceRunOf | patch_config.cjs:27-47 | a run of whitespace followed by a non-space is exactly what `\s*` takes |
| BlockText.SeparatorAt | patch_config.cjs:27 | a match of `Criterion\s+(?=\d+\.\d+\.\d+\.\d+)` starts with "Criterion" and ends, after at least one space, on a digit |
| BlockText.SeparatorsShape | patch_config.cjs:27 | every separator ends after where it starts, on a digit, and starts on a non-digit |
| BlockText.SplitFrom | patch_config.cjs:27 | splitting always yields at least one block; the first block runs from the start to the next separator or to the end |
| BlockText.BlockAfterSeparator | patch_config.cjs:27 | the block after a separator is not empty and starts with the digit the lookahead demanded |
| BlockText.LaterBlocksStartWithDigit | patch_config.cjs:27 | every block after the first starts with a digit |
| BlockText.SplitBlocks | patch_config.cjs:27 | `text.split(...)` yields at least one block, and every block after the first is non-empty and starts with a digit |
| BlockText.NoSeparatorOneBlock | patch_config.cjs:27 | with no separator left, the rest of the text is a single block |
| BlockText.SingleBlock | patch_config.cjs:27 | a text without "Criterion" is returned whole as one block |
| BlockText.BlockCode | patch_config.cjs:31-34 | `/^([\d\.]+)/` matches exactly when the block starts with a digit or dot; the code is the longest such prefix |
| BlockText.LaterBlocksHaveCodes | patch_config.cjs:27-34 | every block after the first has a code, so only the first block of a file can be skipped |
| BlockText.MarkAt | patch_config.cjs:37 | the box a `Critical:\s*([þ¨])` match captures is þ or ¨ |
| BlockText.CriticalFlag | patch_config.cjs:37-41 | there is no flag exactly when no position starts a match |
| BlockText.CriticalFlagAt | patch_config.cjs:37-41 | the flag comes from the leftmost mark: þ reads as true, ¨ as false |
| BlockText.CriticalOf | patch_config.cjs:37-41 | "Critical:", whitespace and þ at the start of a block set the flag true; ¨ sets it false |
| BlockText.LineEnd | patch_config.cjs:47 | the lazy `.*?` cannot cross a line terminator: the first terminator, or the end, bounds it |
| BlockText.FirstEquals | patch_config.cjs:47 | the lazy `.*?=` stops at the first `=` on the label's line after which the rest of the pattern matches |
| BlockText.SeverityMatch | patch_config.cjs:47 | (also the pattern of patch_config.js:46) a match starts at the leftmost label with a usable `=` on its line, at the first such `=`, and its captured value is what the rest of the pattern reads there; no match only when no label qualifies |
| BlockText.FirstLabel | patch_config.cjs:47 | the leftmost label from a position on that has a usable `=` |
| BlockText.NoMatchBefore | patch_config.cjs:47 | where no label before a position has a usable `=`, no match starts before it |
| BlockText.SeverityMatchAt | patch_config.cjs:47 | with the first label at `start` and the first `=` of its line at `eq`, the match is exactly there |
| BlockText.FirstEqualsIs | patch_config.cjs:47 | the lazy `.*?=` stops at the first `=` of the line when the rest matches there |
| BlockText.LineEndPast | patch_config.cjs:47 | the line end lies past any stretch without a line terminator |
| BlockText.FirstLabelIs | patch_config.cjs:47 | the label search stops at the first label when that label has a usable `=` |
| BlockText.LabelLine | patch_config.cjs:47 | a line laid out as the label, text without `=`, then `=` puts the `=` right after that text |
| BlockText.SeverityMatchOnLine | patch_config.cjs:47 | on such a line, the match is at the label and its `=` |
| Extraction.FilesBlocks | patch_config.cjs:22-29 | no files, no blocks |
| Extraction.FilesBlocksSnoc | patch_config.cjs:23-29 | one more file appends its blocks when it is a `.txt` file, and nothing otherwise |
| Extraction.Put | patch_config.cjs:31-51 | a block with a code for which a value is found sets that code's entry, and any other block leaves the map as it was |
| Extraction.FoldSnoc | patch_config.cjs:29-51 | one more block updates the map by that rule |
| Extraction.LastWins | patch_config.cjs:29-51 | the last block that records an id decides its entry: later blocks overwrite earlier ones |
| Extraction.NeverRecorded | patch_config.cjs:29-51 | an id no block records keeps the entry it had before, or stays absent |
| Extraction.SameKeys | patch_config.cjs:47-51 | maps filled from the same blocks by finders that succeed together have the same keys (severityMap and severityTextMap) |
| Extraction.EntryFound | patch_config.cjs:29-51 | every entry's value was found in some block that opens with that code |
| PatchLoop.PatchCriteria | patch_config.cjs:65-100 | every criterion of a standard is patched by the body, in place and in order |
| PatchLoop.PatchStandards | patch_config.cjs:64-101 | only the criteria of each standard change; its other fields stay |
| PatchLoop.PatchSections | patch_config.cjs:63-102 | only the standards of each section change; its other fields stay |
| PatchLoop.PatchConfig | patch_config.cjs:62-103 | the pass changes criteria only: the SEs, sections and standards keep their other fields and their number |
| PatchLoop.CountsAppend | patch_config.cjs:94-98 | both counters add up over consecutive runs of criteria |
| PatchLoop.CountsBounded | patch_config.cjs:94-98 | an updated criterion is never counted missing, so the two counters never exceed the number of criteria |
| PatchLoop.PatchCriteriaLoop | patch_config.cjs:65-100 | the innermost loop patches exactly as specified and counts exactly the updated and the missing criteria |
| PatchLoop.PatchStandardsLoop | patch_config.cjs:64-101 | the loop over standards patches as specified and counts over all their criteria |
| PatchLoop.PatchSectionsLoop | patch_config.cjs:63-102 | the loop over sections patches as specified and counts over all their criteria |
| PatchLoop.PatchPass | patch_config.cjs:59-103 | (the same loop as patch_config.js:57-88) the whole pass gives the patched configuration, `updateCount` and `missingCount` count the updated and missing criteria in visit order, and together they do not exceed the number of criteria |
| PatchLoop.FlatStandardsPatched | patch_config.cjs:64-101 | the criteria of the patched standards are the patched criteria, in the same order |
| PatchLoop.FlatSectionsPatched | patch_config.cjs:63-102 | the criteria of the patched sections are the patched criteria, in the same order |
| PatchLoop.FlatPatched | patch_config.cjs:62-103 | the criteria of the patched configuration are the patched criteria, in the same order |
| PatchLoop.NoneUpdatedAgain | patch_config.cjs:71-95 | with a body that settles what it patches, no patched criterion counts as updated again |
| PatchLoop.PatchOneTwice | patch_config.cjs:71-92 | with a body that settles what it patches, patching twice is patching once |
| PatchLoop.PatchPassTwice | patch_config.cjs:62-103 | with such a body, a second pass changes nothing and counts no update |
| PatchCjs.WordAt | patch_config.cjs:47 | the alternation of the wordings Very Serious, Minor, Moderate, Serious, Extreme under the `i` flag takes the first wording, in the pattern's order, that occurs at the position ignoring case, and fails only when none does |
| PatchCjs.DigitThenWord | patch_config.cjs:47 | what follows the `=` yields a single decimal digit |
| PatchCjs.SeverityFound | patch_config.cjs:47 | a severity match yields a single decimal digit |
| PatchCjs.SeverityOf | patch_config.cjs:47-49 | a block gives a severity exactly when the pattern matches, and the severity is below 10 |
| PatchCjs.SeverityTextOf | patch_config.cjs:47-50 | a block gives a wording exactly when it gives a severity |
| PatchCjs.SeverityOfLines | patch_config.cjs:43-51 | a block with a "Default Severity … = d" line followed by a line starting with one of the wordings yields exactly that digit and that wording |
| PatchCjs.DigitThenWordOf | patch_config.cjs:47 | whitespace, a digit, whitespace, a newline and a wording after the `=` read as that digit and wording |
| PatchCjs.TailLayout | patch_config.cjs:47 | in that layout the digit, the whitespace around it, the newline and the wording sit where the pattern expects them |
| PatchCjs.SpacesThenHead | patch_config.cjs:47 | whitespace followed by a character puts the character right after the whitespace |
| PatchCjs.DigitThenWordAt | patch_config.cjs:47 | spaces, a digit, spaces ending in a newline, then a wording, read as that digit and wording |
| PatchCjs.WordStartsWithLetter | patch_config.cjs:47 | every wording starts with a letter, so the `\s*` before the newline cannot give a character to it |
| PatchCjs.WordFirst | patch_config.cjs:47 | the wording written is the wording taken: no earlier alternative matches in its place |
| PatchCjs.ExtractedFrom | patch_config.cjs:47-51 | severityMap and severityTextMap always have the same keys |
| PatchCjs.PutSeverity | patch_config.cjs:47-51 | a block with a code and a match sets both entries (the digit and the trimmed wording); any other block leaves both maps unchanged |
| PatchCjs.ReadBlock | patch_config.cjs:29-51 | one block updates each of the three maps exactly by the extraction rule |
| PatchCjs.Extract | patch_config.cjs:17-54 | the file and block loops fill the three maps exactly as the extraction specification does |
| PatchCjs.Patch | patch_config.cjs:66-92 | a mapped severity replaces the old one; with its wording too, `default` becomes "NC or PC = <n> <wording>" and `severity_text` is dropped; a mapped mark replaces `is_critical`; everything else stays; `updated` holds exactly when the criterion changed |
| PatchCjs.PatchSettled | patch_config.cjs:66-92 | a patched criterion keeps its id and is patched into itself without counting as updated |
| PatchCjs.PatchIdempotent | patch_config.cjs:73-92 | patching a patched criterion again changes nothing and reports no update |
| PatchCjs.MissingIsUntouched | patch_config.cjs:94-98 | a criterion counts as missing exactly when it has an id, was left as it was, and no severity was extracted for it |
| PatchCjs.PatchScript | patch_config.cjs:17-103 | the script's result is the specified patch of every criterion, with `updateCount` and `missingCount` as specified |
| PatchCjs.PatchScriptTwice | patch_config.cjs:62-103 | running the script a second time on the same text changes nothing and updates nothing |
| PatchJs.DigitAfterSpaces | patch_config.js:46 | `\s*(\d)` matches exactly when the whitespace run is followed by a digit, and reads that digit's value |
| PatchJs.SeverityOf | patch_config.js:46-49 | the severity is a single digit, and there is none only when no position starts a match |
| PatchJs.SeverityOfLine | patch_config.js:45-49 | a block with a "Default Severity … = d" line yields exactly the digit d |
| PatchJs.SpacesDigitAt | patch_config.js:46 | whitespace then a digit after the `=` reads as that digit |
| PatchJs.DigitAfterSpacesAt | patch_config.js:46 | a digit after a run of whitespace is the one read |
| PatchJs.ReadBlock | patch_config.js:31-49 | one block updates both maps exactly by the extraction rule |
| PatchJs.Extract | patch_config.js:17-52 | the file and block loops fill both maps exactly as the extraction specification does |
| PatchJs.Patch | patch_config.js:64-77 | a mapped severity replaces the old one and a mapped mark replaces `is_critical`; nothing else changes; `updated` holds exactly when the criterion changed |
| PatchJs.PatchSettled | patch_config.js:64-77 | a patched criterion keeps its id and is patched into itself without counting as updated |
| PatchJs.PatchScript | patch_config.js:17-88 | the script's result is the specified patch of every criterion, with both counters as specified |
| PatchJs.PatchScriptTwice | patch_config.js:60-88 | running the script a second time on the same text changes nothing and updates nothing |
| KeySort.TupleTotal | scripts/generate_ems_config_from_csv.py:132-137 | integer tuples compare as Python compares them, and any two are ordered one way or the other |
| KeySort.InsertBy | scripts/generate_ems_config_from_csv.py:132-137 | insertion adds exactly the new element |
| KeySort.InsertSorted | scripts/generate_ems_config_from_csv.py:132-137 | inserting into a key-ordered list keeps it in key order |
| KeySort.SortBy | scripts/generate_ems_config_from_csv.py:132-137 | `sorted(…, key=…)` returns a reordering of its input |
| KeySort.SortBySorted | scripts/generate_ems_config_from_csv.py:132-137 | the sorted list is in key order |
| KeySort.InsertInt | scripts/generate_ems_config_from_csv.py:128 | inserting a new integer into an ascending list keeps it strictly ascending and adds exactly that integer |
| KeySort.SortInts | scripts/generate_ems_config_from_csv.py:128 | `sorted(se_map.keys())` lists exactly the keys, strictly ascending |

## Left out

- `computeGraphScores` is imported by `src/hooks/useAssessmentScoring.js` but not defined in any file of this model. Its result, `globalScores`, is an input map.
- File, JSON, PDF and directory I/O is not modelled: `open`, `json.load`/`json.dump`, `fs.readFileSync`/`writeFileSync`, `fitz`, `readdirSync`, and the `__main__` blocks. The scripts work on given lines, rows, file lists and configurations.
- Console output (`print`, `console.log`) is not modelled.
- Network calls are not modelled. In `useUserAssessments.js` the fetched assignments and schedules are given, and only the decision whether a schedule fetch happens is modelled. `respondToAssignment` only forwards a response to the assignment service and refetches, so it is not modelled either; neither is the auto-fetch effect.
- Clocks are parameters: the snapshot timestamp, the `new Date()` fallback of `extractDate`, and `today` in `useUserAssessments.js`.
- React state, hooks and rendering are not modelled: `setLoading`, `setError`, `useMemo` and `useCallback`. Their bodies are modelled as functions of their inputs.
- Percentages are exact ratios. The `parseFloat(percent.toFixed(2))` rounding of `src/utils/scoring.js` is not modelled.
- Python's Unicode `\d`, `str.isdigit`, `re.IGNORECASE` and `str.upper` are modelled on ASCII digits and letters. Other Unicode digits and letters count as neither digits nor letters here.
- Python sets are iterated in hash order, and that order is not modelled. The cleanup loop of `build_schema` takes its visiting order as a parameter, any permutation of the valid ids. The result depends on it: of a mutual pair, the code visited first keeps its link.
- TeamAssignment.ExtractDate: `extractDate` sorts with `new Date(a.eventDate) - new Date(b.eventDate)`, which is NaN when either event is undated, and the sort reads NaN as "equal". The model defines the result where the stable sort fixes it: every event dated (the least date, the first among equals), or at most one dated event (the first event decides). With two or more dated events and an undated one the comparator is inconsistent and the engine's order is not defined; the model then takes the earliest dated event. Dates are compared as text, which orders ISO dates of one format as `Date` does; other date formats and unparseable dates are not modelled.
- Transformers.FieldOf: an element with neither a form name nor a display name makes `name.endsWith` throw a TypeError (src/utils/transformers.js:63). The model labels such a field with the empty name instead of failing.
- Transformers.CleanHeaderName: its own contract states only the length and the stripped ends. The `(--)` removal is stated by MarkerRemoved and CleanEnclosedMarker, and the trailing `--` by CleanTrailingMarker. No contract says that no `(--)` remains, because the removal does not rescan: "((--)--)" keeps "(--)".
- Nested JSON objects that the scripts update in place are updated as values. This covers the criteria of `patch_config.*`, the SEs, sections and standards of `parse_ems_text.py` and `generate_ems_config_from_csv.py`, and the items of `reextract_links.py`. The methods return the new configuration, so aliasing between the current SE/section/standard references and the list is not modelled. The entries of the matrix repair scripts are an `array` updated in place.
- `parse_ems_text.py` opens its files one after another. The model takes each file as a list of lines.
- ParseEmsText.ParseText: states well-formedness and the order by SE id, not which SEs the files produce. What each line of a file contributes is stated by ParseFile's trace and the branch methods, SeBranch through IntentBranch.
- EmsTextLines.IntentHasNoMarker: proved for statements without a newline. Every statement `parse_text` builds is a stripped line, or stripped lines joined by spaces.
- EmsTextLines.Following: its own contract states only the bounds of the stop index. The parts it collects are stated by FollowingTexts and FollowingParts.
- BlockText.SplitFrom: its own contract states only the first block. The later blocks are stated by LaterBlocksStartWithDigit and SplitBlocks.
