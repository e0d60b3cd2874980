# formarter core, modelled in Dafny

This project models the core of *formarter*, a desktop tool for pro se
litigants that formats federal court filings. It also keeps the filer's
case library, exhibits, lawsuits and documents, and audits a motion for a
temporary restraining order (TRO) against a compliance checklist. The model
covers five groups of the program:

- **Compliance audit**: the fixed table of 107 TRO checklist items, with
  its filters and its lookup by id (`checklist.dfy`, `checklist_table.dfy`).
  The per-document result tally and its score, and the running audit log
  (`audit_results.dfy`).
- **Docket analyzer**:
  - classifying entries by first-match precedence;
  - computing deadlines under Fed. R. Civ. P. 6, with three extra days for
    pro se service and roll-off from Saturday and Sunday;
  - building and linking motion chains in two passes;
  - prioritised alerts and the summary counts.

  These live in `docket_types.dfy`, `docket_classify.dfy`,
  `docket_chains.dfy`, `docket_alerts.dfy`, `docket_summary.dfy` and
  `docket.dfy`.
- **Document structure**:
  - sections, sub-items and continuously numbered paragraphs, and their
    renumbering (`document.dfy`);
  - the editor's split of its text into paragraphs and its section
    starts (`editor.dfy`);
  - the layout-independent rules of the PDF export (`pdf_export.dfy`).
- **Citation string utilities**:
  - Bluebook citation formatting, reporter normalisation, party-name title
    case and file-name sanitising;
  - parsing of underscore-separated citations, and the three file-name
    parsers;
  - recovery of case names from text, and the case-law citation
    extractor.

  These live in `library_case.dfy`, `rename_cases.dfy`,
  `citation_text.dfy`, `fix_case_library.dfy`, `rename_all_cases.dfy`,
  `extract_names.dfy` and `case_law_extractor.dfy`.
- **In-memory stores** and the dict forms of their records: the case
  library, the exhibit bank, the lawsuit manager and the document store
  (`case_library.dfy`, `exhibit.dfy`, `exhibit_bank.dfy`, `lawsuit.dfy`,
  `saved_document.dfy`, `storage.dfy`).

Shared modules give Python's semantics where the program relies on them:

- `Wrappers`: `None`-or-value results and first-match search;
- `Text`: `str` methods restricted to ASCII;
- `JsonValue`: the values `to_dict` and `from_dict` exchange;
- `OrderedMap`: insertion-ordered dictionaries;
- `Sorting`: Python's stable `sorted`;
- `Tallies`: counting into a dictionary;
- `Clock`: timestamps, with the current time as a parameter.

Where the program changes objects in place, the model is a class with the
same fields:

- `AuditResult` and `AuditLog`;
- `DocketAnalyzer`;
- `Document`;
- `MainWindow`;
- `CaseLibrary`;
- `ExhibitBank`;
- `LawsuitManager`;
- `DocumentStorage`.

Each of their methods is proved against functions on values, and the
properties of those functions are lemmas.

The compliance score divides the passed count by passed + failed +
warnings (`src/auditor/results.py:75` and `:195`);
`AuditResults.ScoreTenths` does the same.

## Model

| member | source | states |
|---|---|---|
| AuditResults.ItemResultFromDict | src/auditor/results.py:42-53 | a missing `item_id`, `category`, `description`, `rule_citation` or `status` key fails the decode; a decoded result holds exactly the values stored under those five keys, the stored `message` and `line_number` when present, and "" and none when absent |
| AuditResults.ItemResultRoundTrip | src/auditor/results.py:30-53 | decoding the dict of a result gives back the same result |
| AuditResults.CountStatusAppend | src/auditor/results.py:85-97 | appending one result raises the count of its own status by one and leaves every other status count unchanged |
| AuditResults.StatusCountsSum | src/auditor/results.py:85-97 | the pass, fail, warning, manual and n/a counts add up to the number of results with a recognised status |
| AuditResults.Recognised | src/auditor/results.py:85-97 | the recognised results are exactly the results whose status is one of the five status strings |
| AuditResults.ScoreTenths | src/auditor/results.py:72-78 | the score is 0 when nothing is checkable; otherwise it is `passed / (passed + failed + warnings) * 100` to the nearest tenth, lies in [0, 100], is 0 with no pass and 100 with only passes |
| AuditResults.AuditResult.constructor | src/auditor/results.py:56-70 | a new result has version "1.0", 107 items, all counters 0 and no items or critical issues |
| AuditResults.AuditResult.CheckedCountIsChecked | src/auditor/results.py:80-97 | on a consistent tally `checked_count` is the number of pass, fail and warning results, and with the manual and n/a counters it covers every recognised result |
| AuditResults.AuditResult.AddResult | src/auditor/results.py:85-97 | the result is appended and exactly the counter of its status is raised (none for an unrecognised status); nothing else changes and the tally stays consistent with the items |
| AuditResults.PercentComplete | src/auditor/results.py:170-176 | the percentage is `items_checked / total_items * 100` to the nearest whole number, at most 100 when no more than the total was checked, and 100 when all were |
| AuditResults.PercentNoTie | src/auditor/results.py:173-175 | with 107 items the exact percentage is never halfway between two whole numbers, so the rounding rule for halves does not matter |
| AuditResults.StoredAppend | src/auditor/results.py:178-180 | storing one more result dict raises the stored count of its status by one and no other |
| AuditResults.AuditLog.CreateNew | src/auditor/results.py:244-254 | a new log is "in_progress", its session id is "audit-" and the timestamp, started and last updated are the same ISO time, and progress and summary are zero |
| AuditResults.AuditLog.UpdateProgress | src/auditor/results.py:170-176 | `items_checked` is set, `percent_complete` is its rounded percentage of the total, the total and everything else are unchanged |
| AuditResults.AuditLog.AddItemResult | src/auditor/results.py:178-199 | the result dict is appended; exactly the summary counter of its status is raised (none for n/a); a failed item 12, 15, 21, 54 or 65 adds one critical issue "#id: message"; the score is recomputed only when something is checkable; `items_checked` becomes the number of results |
| AuditResults.AuditLog.TallyStatus | src/auditor/results.py:182-197 | the summary counters, critical issue and score change as `add_item_result` changes them, and the results and progress stay as they were |
| AuditResults.AuditLog.Complete | src/auditor/results.py:201-204 | the status becomes "completed" and the results, summary and progress are unchanged |
| AuditResults.AuditLog.Fail | src/auditor/results.py:206-210 | the status becomes "failed", exactly one "Audit failed: " issue is appended, and the results and summary are unchanged |
| Checklist.FilterCategorySpec | src/auditor/checklist.py:940-942 | the category filter keeps exactly the items of that category |
| Checklist.FilterAutoSpec | src/auditor/checklist.py:945-952 | the automatic (manual) filter keeps exactly the items whose `auto_checkable` flag is set (clear) |
| Checklist.FilterAutoPartition | src/auditor/checklist.py:945-952 | every list splits into its automatic and its manual items, their sizes adding up to its size |
| Checklist.FindById | src/auditor/checklist.py:955-960 | the scan returns an item with the id, the first one in list order, and returns none exactly when no item has the id |
| Checklist.FindByIdConsecutive | src/auditor/checklist.py:955-960 | in a list whose ids are 1, 2, 3, ... id n is found at position n - 1, and any other id is not found |
| ChecklistTable.CaptionBlock | src/auditor/checklist.py:61-145 | the caption block is 9 well-formed items with ids 1-9 |
| ChecklistTable.MotionContentBlock | src/auditor/checklist.py:146-243 | the motion content block is 12 well-formed items with ids 10-21 |
| ChecklistTable.CertificateNoticeBlock | src/auditor/checklist.py:244-284 | the certificate of notice block is 5 well-formed items with ids 22-26 |
| ChecklistTable.SecurityBondBlock | src/auditor/checklist.py:285-318 | the security block is 4 well-formed items with ids 27-30 |
| ChecklistTable.ReliefRequestedBlock | src/auditor/checklist.py:319-361 | the relief block is 5 well-formed items with ids 31-35 |
| ChecklistTable.VerificationBlock | src/auditor/checklist.py:362-424 | the verification block is 7 well-formed items with ids 36-42 |
| ChecklistTable.FormattingBlock | src/auditor/checklist.py:425-520 | the formatting block is 13 well-formed items with ids 43-55, item 54 automatic with a detector but no pattern or text |
| ChecklistTable.SignatureBlock | src/auditor/checklist.py:521-597 | the signature block is 9 well-formed items with ids 56-64 |
| ChecklistTable.CertificateServiceBlock | src/auditor/checklist.py:598-668 | the certificate of service block is 9 well-formed items with ids 65-73 |
| ChecklistTable.DateFilingBlock | src/auditor/checklist.py:669-702 | the date of filing block is 4 well-formed items with ids 74-77 |
| ChecklistTable.ExhibitsBlock | src/auditor/checklist.py:703-773 | the exhibits block is 9 well-formed items with ids 78-86 |
| ChecklistTable.ProposedOrderBlock | src/auditor/checklist.py:774-854 | the proposed order block is 11 well-formed items with ids 87-97 |
| ChecklistTable.UrgentEmergencyBlock | src/auditor/checklist.py:855-902 | the emergency block is 6 well-formed items with ids 98-103 |
| ChecklistTable.ProSeBlock | src/auditor/checklist.py:903-932 | the pro se block is 4 well-formed items with ids 104-107 |
| ChecklistTable.CategoryBlock | src/auditor/checklist.py:59-933 | each category's block has ids running from its first id, all of that category, and the next block starts where it ends |
| ChecklistTable.BlockIds | src/auditor/checklist.py:59-933 | each category's block carries consecutive ids from its first id |
| ChecklistTable.TableIds | src/auditor/checklist.py:59-933 | the table holds 107 items whose ids are 1..107 in list order, each inside its category's id range; every automatic item names a detector routine and, except item 54, a pattern or required text, and manual items have none of them |
| ChecklistTable.BlocksDisjoint | src/auditor/checklist.py:59-933 | the id ranges of different categories do not overlap |
| ChecklistTable.GetChecklistByCategory | src/auditor/checklist.py:940-942 | the result holds exactly the table's items of the category |
| ChecklistTable.ByCategoryIsBlock | src/auditor/checklist.py:940-942 | `get_checklist_by_category` returns exactly the contiguous block of the category, in table order |
| ChecklistTable.AutoCheckableItemsSpec | src/auditor/checklist.py:945-947 | the automatic list holds exactly the table's automatic items |
| ChecklistTable.ManualItemsSpec | src/auditor/checklist.py:950-952 | the manual list holds exactly the table's manual items |
| ChecklistTable.GetItemById | src/auditor/checklist.py:955-960 | a found item is in the table and has the id; none is returned exactly when no table item has it |
| ChecklistTable.GetItemByIdTable | src/auditor/checklist.py:955-960 | ids 1..107 find the item at position id - 1, and every other id gives none |
| ChecklistTable.CountsAddUp | src/auditor/checklist.py:964-966 | `AUTO_CHECKABLE_COUNT + MANUAL_REVIEW_COUNT == TOTAL_ITEMS == 107` |
| Docket.DocketAnalyzer.constructor | src/docket_analyzer.py:151-159 | a new analyzer keeps the pro se flag and starts with no motion chains |
| Docket.DocketAnalyzer.SearchOrderStatus | src/docket_analyzer.py:324-328 | the status loop returns the status of the first order pattern that matches the entry text, or the old status when none does |
| Docket.DocketAnalyzer.LinkOne | src/docket_analyzer.py:307-328 | one step of the linking pass leaves the chains exactly as the specification step `LinkEntry` gives them |
| Docket.DocketAnalyzer.AnalyzeEntries | src/docket_analyzer.py:263-340 | every entry is classified on its own, in order; the chains are those of the MOTION entries after every linking entry is applied; the alerts and summary are those of the final chains |
| Docket.DocketAnalyzer.ClassifyPass | src/docket_analyzer.py:273-305 | the first pass resets the chains, classifies every entry and stores one fresh chain per MOTION entry |
| Docket.DocketAnalyzer.LinkPass | src/docket_analyzer.py:307-328 | the second pass applies the entries in docket order to the chains they name |
| Docket.DocketAnalyzer.GenerateAlerts | src/docket_analyzer.py:342-411 | the alerts are those of the chains in dictionary order, stably sorted by priority rank and then by days |
| Docket.DocketAnalyzer.GenerateSummary | src/docket_analyzer.py:413-430 | the summary counts entry types, motions, pending and resolved motions and emergency entries of the given entries and chains |
| DocketTypes.RuleFor | src/docket_analyzer.py:139-149 | a rule exists exactly for the nine deadline names of the table |
| DocketTypes.RollOffWeekendSpec | src/docket_analyzer.py:233-237 | a Saturday moves to Monday and a Sunday to Monday: the rolled date is the first non-weekend day on or after the date, at most two days later, and a weekday stays put |
| DocketTypes.DeadlineSpec | src/docket_analyzer.py:224-246 | the total is the base days plus the pro se allowance (zero for a represented party); the deadline falls on the first non-weekend day on or after the start plus the total; the jurisdictional flag comes from the rule |
| DocketTypes.CalculateDeadline | src/docket_analyzer.py:212-246 | an unknown deadline type fails with "Unknown deadline type: " and the name, exactly when the name is not in the table; otherwise the deadline of the table's rule |
| DocketTypes.ChainDeadlinesFromTable | src/docket_analyzer.py:139-141 | the response and reply deadlines of a chain use the table's `motion_response` (14 + 3) and `motion_reply` (7 + 3) rules |
| DocketClassify.EmergencyIgnoresCase | src/docket_analyzer.py:205-210 | emergency detection gives the same answer for a text and its lower-case form |
| DocketClassify.MotionClassSpec | src/docket_analyzer.py:170-177 | a motion type is found exactly for motion text; the first motion pattern that matches decides the type; a text with MOTION but no pattern is an Other motion |
| DocketClassify.ResponseClassSpec | src/docket_analyzer.py:179-184 | a response or reply exactly when a response pattern matches; a reply exactly when the opposition pattern fails and the reply pattern matches |
| DocketClassify.OrderClassSpec | src/docket_analyzer.py:186-193 | an order exactly when an order pattern matches or the upper-cased text contains ORDER |
| DocketClassify.WordClassSpec | src/docket_analyzer.py:194-203 | COMPLAINT, then ANSWER, then NOTICE, then SUMMONS decides the type, each only when every earlier word is absent; otherwise Other |
| DocketClassify.ClassifyEntrySpec | src/docket_analyzer.py:161-203 | the precedence of the classifier: a motion type exactly for motions, motions before responses before orders before the keyword classes, each stage only when every earlier one fails |
| DocketClassify.ExtractRelatedDocketNumSpec | src/docket_analyzer.py:248-261 | no number exactly when no reference pattern captures one; otherwise the number of the first pattern that does |
| DocketChains.ClassifySpec | src/docket_analyzer.py:277-288 | a classified entry keeps the entry and takes its type, motion type, emergency flag and referenced number from its text, a missing text read as empty |
| DocketChains.ClassifyAllIndex | src/docket_analyzer.py:276-288 | the first pass classifies each entry on its own and keeps their number and order |
| DocketChains.NewChain | src/docket_analyzer.py:291-305 | a new chain is pending, with no responses, replies or orders, no reply deadline, the `motion_response` deadline from the motion date, and `filed_by` defaulting to "Unknown" |
| DocketChains.BuildChainsSnoc | src/docket_analyzer.py:290-305 | one more entry in the first pass stores a fresh chain under its number when it is a motion, and changes nothing otherwise |
| DocketChains.BuildChainsDistinct | src/docket_analyzer.py:297 | the chain dictionary has at most one chain per docket number |
| DocketChains.BuildChainsKeys | src/docket_analyzer.py:290-305 | after the first pass a number has a chain exactly when some MOTION entry carries it |
| DocketChains.BuildChainsLatest | src/docket_analyzer.py:297 | the chain under a number is built from the last MOTION entry with that number |
| DocketChains.BuildChainsFresh | src/docket_analyzer.py:297-305 | every chain of the first pass is fresh and filed under its own motion's number |
| DocketChains.StatusAfterOrder | src/docket_analyzer.py:324-328 | an order sets the status of the first order pattern that matches its text and keeps the old status when none matches |
| DocketChains.LinkEntryStep | src/docket_analyzer.py:307-328 | one linking step keeps the chain keys and changes only the chain the entry names, when its non-zero number names one |
| DocketChains.LinkAllKeys | src/docket_analyzer.py:307-328 | the second pass keeps the chain keys, in order and distinct |
| DocketChains.LinkAllPerChain | src/docket_analyzer.py:307-328 | per chain, the second pass applies exactly the entries that name it, in docket order; a number without a chain stays without one |
| DocketChains.ApplyAllLists | src/docket_analyzer.py:313-323 | a chain keeps its motion and response deadline and gains the numbers of its RESPONSE, REPLY and ORDER entries, in order |
| DocketChains.ApplyAllStatus | src/docket_analyzer.py:322-328 | only an ORDER changes the status, and the status after a final ORDER is that order's status search from the status before it |
| DocketChains.ApplyAllReplyDeadline | src/docket_analyzer.py:313-318 | the reply deadline is the `motion_reply` deadline from the date of the last RESPONSE |
| DocketChains.ApplyAllNoResponse | src/docket_analyzer.py:313-318 | without a RESPONSE the reply deadline is unchanged |
| DocketAlerts.InsertSorted | src/docket_analyzer.py:407-409 | inserting an alert keeps a sorted list sorted and adds exactly that alert |
| DocketAlerts.SortAlertsSorted | src/docket_analyzer.py:407-409 | the sorted alerts are ordered by (priority rank, days) and are a permutation of the input |
| DocketAlerts.SortAlertsStable | src/docket_analyzer.py:407-409 | alerts with the same key keep their relative order |
| DocketAlerts.ResponseAlert | src/docket_analyzer.py:353-376 | a response alert is overdue and critical exactly when the deadline has passed, otherwise upcoming with at most seven days left, and high exactly when at most three |
| DocketAlerts.ReplyAlert | src/docket_analyzer.py:378-403 | a reply alert is overdue and high exactly when the deadline has passed, otherwise upcoming and medium within five days |
| DocketAlerts.ChainAlerts | src/docket_analyzer.py:346-403 | a chain gives alerts only while pending; a response alert exactly when no response is filed and its deadline is within the window; a reply alert exactly when a response but no reply is filed and the reply deadline is within the window |
| DocketAlerts.CollectedAlertsSound | src/docket_analyzer.py:346-350 | every collected alert is well formed and belongs to a pending chain of the dictionary |
| DocketAlerts.ResolvedChainsSilent | src/docket_analyzer.py:349-350 | a chain that is not pending gives no alert |
| DocketSummary.EntryTypes | src/docket_analyzer.py:415-418 | the types of the classified entries, one per entry, in order |
| DocketSummary.TypeCountsExact | src/docket_analyzer.py:415-418 | each type that occurs has one count, equal to its number of entries; an absent type has no key; the counts sum to the number of entries |
| DocketSummary.PendingPlusResolved | src/docket_analyzer.py:420-421 | every motion chain is either pending or resolved |
| DocketSummary.SummaryConsistent | src/docket_analyzer.py:423-430 | pending plus resolved motions is the number of motions; the type counts sum to the number of entries; emergencies are at most the entries |
| DocumentModel.DisplayTextSpec | src/models/document.py:77-81 | a text no longer than the limit is shown whole; a longer one is shown as its first `max_length` characters followed by "..." |
| DocumentModel.AllParagraphIdsSpec | src/models/document.py:111-116 | the ids are in ascending order and are, with their multiplicities, the section's own ids and all its sub-items' ids |
| DocumentModel.FileInSectionSpec | src/models/document.py:159-169 | filing into a section adds the number to one list and keeps the section's shape; a sub-item name that no sub-item has changes nothing |
| DocumentModel.FileUnderSpec | src/models/document.py:159-169 | the number is appended to exactly one list, that of the first section with the id (or its first sub-item with the name), or nothing changes; no section or sub-item is renamed, added or lost; every other section is unchanged |
| DocumentModel.ContinuousGet | src/models/document.py:119-125 | continuously numbered paragraphs have distinct keys, and paragraph `n` is stored under `n` exactly for 1 <= n <= count |
| DocumentModel.PutNextContinuous | src/models/document.py:150-157 | storing the paragraph numbered count + 1 under that number appends it and keeps the numbering continuous |
| DocumentModel.ResolvedMembers | src/models/document.py:193-201 | the references collected by the first loop are exactly the references that name a stored paragraph |
| DocumentModel.ResolvedDistinct | src/models/document.py:193-201 | collecting the stored references adds no repeats |
| DocumentModel.ResolvedAll | src/models/document.py:193-201 | when every reference names a stored paragraph, none is dropped |
| DocumentModel.ReplaceFirstSpec | src/models/document.py:212-219 | `list.index` then assignment changes only the first occurrence of the old number; a list without it is unchanged |
| DocumentModel.RenumberStepsNums | src/models/document.py:203-208 | every collected paragraph is given a number from 1 to the count, and with no repeated reference its own position |
| DocumentModel.RenumberNumbering | src/models/document.py:189-224 | with no paragraph referenced twice, the paragraphs end up keyed 1..k, each numbered with its key, key `i` holding the `i`-th referenced paragraph; unreferenced paragraphs are dropped |
| DocumentModel.RenumberCollision | src/models/document.py:210-219 | the as-written rewriting of references collides: sections referring to 2 and then 1 both end up referring to 2, and the first section no longer shows the paragraph it showed |
| DocumentModel.RenumberByPositionSpec | src/models/document.py:189-224 | the corrected renumbering keeps the layout, numbers the references 1, 2, ... in visiting order, numbers the paragraphs continuously, and each reference still shows the paragraph it showed before |
| DocumentModel.Document.constructor | src/models/document.py:120-131 | a new document has the given title, no sections, no paragraphs, the default caption and an empty signature |
| DocumentModel.Document.AddSection | src/models/document.py:133-137 | a new empty section is appended and nothing else changes |
| DocumentModel.Document.AddParagraph | src/models/document.py:139-171 | the paragraph takes number count + 1, is stored under it and is filed by `FileUnder`; continuous numbering is kept |
| DocumentModel.Document.CollectOrder | src/models/document.py:192-201 | the first loop of `renumber_paragraphs` collects every reference that names a stored paragraph, section by section, own list before sub-items |
| DocumentModel.Document.PatchReferences | src/models/document.py:210-219 | the inner loop replaces the first occurrence of the old number in every section and sub-item list |
| DocumentModel.Document.RenumberParagraphs | src/models/document.py:189-224 | the sections and paragraphs after renumbering are exactly those of the as-written specification; the new paragraph keys are distinct, so paragraphs can be added afterwards, and they run 1..k when no paragraph is referenced twice |
| DocumentModel.AddParagraphsContinuous | src/models/document.py:139-157 | from an empty document, n additions give keys 1..n, each paragraph numbered with its key and holding its text |
| DocumentModel.NumberedFromSpec | src/models/document.py:150-157 | adding paragraphs to a continuously numbered dictionary keeps the old ones, appends the new ones in order and stays continuous |
| Editor.IsBlankStrip | src/app.py:159-161 | a line is skipped exactly when stripping it leaves nothing |
| Editor.NonBlankUpToSpec | src/app.py:158-161 | the indices of the kept lines increase and are exactly the lines that are not blank |
| Editor.ParsedIndex | src/app.py:158-170 | paragraph `k` is numbered `k` and holds the stripped `k`-th non-blank line, with no section |
| Editor.LineMapIndex | src/app.py:158-170 | line map entry `k` holds the index of the `k`-th non-blank line |
| Editor.LineMapIncreasing | src/app.py:158-170 | later paragraphs come from later lines |
| Editor.LineMapOnto | src/app.py:158-170 | exactly the non-blank lines are the line of some paragraph |
| Editor.ParseSpec | src/app.py:143-170 | the non-blank lines are numbered 1..n in order, each paragraph's text is its stripped line and never empty, and the line map sends each paragraph to its line with strictly increasing indices |
| Editor.KeepStartsSpec | src/app.py:172-178 | a section start survives exactly when its paragraph number is at most the new paragraph count, with its section, and starts stay distinct |
| Editor.ChooseNumeralFirst | src/app.py:301-305 | the numeral is the first of I..XX not in use |
| Editor.ChooseNumeralFree | src/app.py:301-305 | while a numeral is free, the chosen one is a numeral not in use |
| Editor.ChooseNumeralFallback | src/app.py:306-307 | only when all twenty numerals are used is the id "S" followed by the count plus one |
| Editor.ReassignedSpec | src/app.py:316-329 | after the move the section starts at the paragraph; its old start is gone unless it was that paragraph; every other start keeps its section; starts stay distinct and ids stay unique |
| Editor.SectionForSpec | src/app.py:358-364 | no section when every start is after the paragraph; otherwise the section at the greatest start at or before it |
| Editor.CharOffsetLine | src/app.py:391-392 | in the text joined by line feeds, line `idx` occupies the characters from its offset for its length |
| Editor.ClickSelectionSpec | src/app.py:380-399 | no selection when the paragraph has no line or the line is past the text; otherwise the selection covers exactly the paragraph's line |
| Editor.MainWindow.constructor | src/app.py:34-51 | a new window holds a new, empty document, an empty line map and no section starts |
| Editor.MainWindow.ParseLines | src/app.py:157-170 | the loop over the lines builds exactly the specified paragraphs and line map |
| Editor.MainWindow.KeptStarts | src/app.py:172-177 | the loop over the old starts keeps exactly the specified starts |
| Editor.MainWindow.ParseParagraphs | src/app.py:143-178 | the paragraphs and line map are rebuilt from the text's lines and the starts past the last paragraph dropped; the document's sections and title are unchanged |
| Editor.MainWindow.CreateSectionAt | src/app.py:289-314 | a cancelled dialog or blank name changes nothing; otherwise a section with the upper-cased stripped name and the next free numeral starts at the paragraph |
| Editor.MainWindow.AssignToSection | src/app.py:316-329 | the section starts exactly where `Reassigned` puts it |
| Editor.MainWindow.RemoveSection | src/app.py:337-341 | the start at the paragraph is deleted if there is one |
| Editor.MainWindow.RemoveFromSection | src/app.py:331-335 | the start at the paragraph is deleted if there is one |
| LibraryCaseModel.CategoryToDict | src/models/library_case.py:30-36 | a category's dict has exactly the keys `id`, `name` and `color` |
| LibraryCaseModel.CategoryFromDict | src/models/library_case.py:38-46 | decoding needs the `id` and `name` keys; a missing `color` becomes the default blue "#4A90D9" |
| LibraryCaseModel.CategoryRoundTrip | src/models/library_case.py:30-46 | decoding a category's dict gives back the category |
| LibraryCaseModel.RemoveCharsSpec | src/models/library_case.py:112-114 | removing a set of characters leaves none of them and adds none |
| LibraryCaseModel.RemoveCharsAbsent | src/models/library_case.py:112-114 | removing characters a string does not hold leaves it unchanged |
| LibraryCaseModel.SanitizeFilename | src/models/library_case.py:106-117 | the loop over the unsafe characters gives the specified sanitised name |
| LibraryCaseModel.SanitizedNameSafe | src/models/library_case.py:106-117 | a sanitised name holds none of the unsafe characters and has no surrounding whitespace |
| LibraryCaseModel.SanitizedNameKeeps | src/models/library_case.py:106-117 | a name that is already safe, holds no "v." and has no surrounding whitespace is kept as it is |
| LibraryCaseModel.CleanReporterSpec | src/models/library_case.py:81 | the cleaned reporter holds no period and no space, and only characters of the reporter |
| LibraryCaseModel.FormatBluebookSpec | src/models/library_case.py:118-137 | the citation is the name, a comma and the short citation, followed by a parenthetical exactly when a court or year is known, listing the court before the year |
| LibraryCaseModel.CreateCaseSpec | src/models/library_case.py:66-104 | a created case keeps its citation parts, id, creation time, category, keywords and notes; its PDF and text file names are the sanitised stem "Name Vol Reporter Page" (`BaseFilename`) with ".pdf" and ".txt"; its citation is `_format_bluebook` of its own fields and so begins with the name and the short citation |
| LibraryCaseModel.CaseToDict | src/models/library_case.py:139-157 | a case's dict is an object carrying the case id under `id` |
| LibraryCaseModel.CaseFromDict | src/models/library_case.py:158-177 | decoding needs `id`, `case_name` and `pdf_filename`, among others; a missing year is empty and missing keywords are none |
| LibraryCaseModel.CaseRoundTrip | src/models/library_case.py:139-177 | decoding a case's dict gives back the case |
| LibraryCaseModel.SummarySpec | src/models/library_case.py:192-213 | the summary is "No files processed" exactly when nothing was processed, and otherwise begins with a count |
| RenameCases.Lookup | src/utils/rename_cases.py:63-64 | a found value belongs to an entry with exactly that key; nothing is found exactly when no entry has the key |
| RenameCases.LookupIgnoreCase | src/utils/rename_cases.py:66-69 | a found value belongs to an entry whose key equals the input ignoring case; nothing is found exactly when no key does |
| RenameCases.ValuesAreNormalForms | src/utils/rename_cases.py:25-46 | every value of the reporter table is one of the eight normalised forms |
| RenameCases.NormalFormFixed | src/utils/rename_cases.py:25-46 | every normalised form is itself a key mapping to itself, with no surrounding whitespace |
| RenameCases.LookupFirst | src/utils/rename_cases.py:63-64 | the lookup finds the value of the first entry with the key |
| RenameCases.NormalizeKey | src/utils/rename_cases.py:49-64 | a key of the table with no surrounding whitespace normalises to its value |
| RenameCases.NormalizeF3d | src/utils/test_rename.py:123 | "F3d" normalises to "F.3d" |
| RenameCases.NormalizeF2d | src/utils/test_rename.py:124 | "F2d" normalises to "F.2d" |
| RenameCases.NormalizeUS | src/utils/test_rename.py:125 | "US" normalises to "U.S." |
| RenameCases.NormalizeSCt | src/utils/test_rename.py:126 | "SCt" normalises to "S. Ct." |
| RenameCases.NormalizeSCtDotted | src/utils/test_rename.py:127 | "S.Ct." normalises to "S. Ct." |
| RenameCases.NormalizeFSupp2d | src/utils/test_rename.py:128 | "FSupp2d" normalises to "F. Supp. 2d" |
| RenameCases.NormalizeFSupp3d | src/utils/test_rename.py:129 | "FSupp3d" normalises to "F. Supp. 3d" |
| RenameCases.NormalizeReporterSpec | src/utils/rename_cases.py:49-72 | the result is a normalised form from the table or the stripped input, and an exact key gives its own value |
| RenameCases.NormalizeReporterIdempotent | src/utils/rename_cases.py:49-72 | normalising twice is normalising once |
| RenameCases.SmartCapitalizeSameLetters | src/utils/rename_cases.py:109-139 | capitalising a word changes only the case of its letters, never its length or other characters |
| RenameCases.SmartCapitalizeParts | src/utils/rename_cases.py:122-130 | a word with an apostrophe, or else with a hyphen, comes out split at the same places into the capitalised parts of the word |
| RenameCases.SmartCapitalizePrefix | src/utils/rename_cases.py:132-139 | without apostrophe or hyphen, a word starting with "mc" (longer than two) becomes "Mc" and the capitalised rest, with a capital after "Mc"; one starting with "mac" (longer than three) becomes "Mac" and the capitalised rest; any other word is `word.capitalize()` |
| RenameCases.SmartCapitalizeSpec | src/utils/rename_cases.py:109-139 | all of `smart_capitalize`: only letter case changes; apostrophe parts, else hyphen parts, are capitalised one by one; a leading "Mc"/"Mac" keeps the capital after it; otherwise the word is capitalised |
| RenameCases.TitleWordSpec | src/utils/rename_cases.py:158-177 | "US" in any case becomes "U.S."; every other word changes only in case; listed abbreviations come out in capitals; listed small words after the first come out in lower case; the first word and every later word outside the small-word list, when not an abbreviation, is `smart_capitalize`d |
| RenameCases.TitleCasePartySpec | src/utils/rename_cases.py:142-179 | the title-cased name has the party's words, as many as before, each title-cased in its place |
| RenameCases.ReplacementsClosed | src/utils/rename_cases.py:196-207 | no replaced character is whitespace, and no replacement text holds a replaced character |
| RenameCases.SanitizeFilenameSpec | src/utils/rename_cases.py:182-216 | the sanitised name holds no replaced character and no NUL, is single-spaced and has no surrounding whitespace |
| RenameCases.SanitizeFilenameIdempotent | src/utils/rename_cases.py:182-216 | sanitising twice is sanitising once |
| RenameCases.GenerateBluebookFilenameSpec | src/utils/rename_cases.py:219-255 | a file name exists exactly when the stripped case name, volume, reporter, page and year are all non-empty, and it is always sanitised |
| RenameCases.GenerateBluebookFilenameUnnamedCourt | src/utils/rename_cases.py:244-247 | a court of "U.S." or "US" gives the same file name as no court |
| FixCaseLibrary.TitleWordSpec | src/utils/fix_case_library.py:60-84 | each word comes out as "U.S." or differs only in case: "U.S." spellings become "U.S.", short listed abbreviations are upper-cased, listed small words after the first are lower-cased, and the first word is otherwise capitalised |
| FixCaseLibrary.TitleWordIsWord | src/utils/fix_case_library.py:60-84 | title-casing a word gives a word: no whitespace and not empty |
| FixCaseLibrary.TitleCaseNameSpec | src/utils/fix_case_library.py:60-84 | the title-cased name has the name's words, as many as before, each title-cased in its place |
| FixCaseLibrary.FindVolume | src/utils/fix_case_library.py:114-119 | the volume is the first part from the given index that is at most four digits; none exactly when no such part exists |
| FixCaseLibrary.FirstDigitsFrom | src/utils/fix_case_library.py:138-144 | the page index is the first all-digit part after the volume; none exactly when there is none |
| FixCaseLibrary.ScanRestLoop | src/utils/fix_case_library.py:155-163 | the loop over the parts after the page gives the specified year and court |
| FixCaseLibrary.ScanRestYear | src/utils/fix_case_library.py:155-163 | the year is the last four-digit part after the page, or "" when there is none |
| FixCaseLibrary.ScanRestCourt | src/utils/fix_case_library.py:155-163 | the court is the last part after the page that is not all digits, or "" when there is none |
| FixCaseLibrary.ReporterEnd | src/utils/fix_case_library.py:137-144 | the reporter parts end at the first number after the volume, else at the end, so they are never past the parts |
| FixCaseLibrary.ParseNoneCases | src/utils/fix_case_library.py:96-122 | no parse without '_', without a part equal to "v" in any case, or without a volume-like part two or more places after it |
| FixCaseLibrary.ParseSomeSpec | src/utils/fix_case_library.py:124-174 | given the first "v" and the first volume after it, the parse fails exactly when fewer than three parts start at the volume or the next part is a number; on success the volume is that part and the case name is the two title-cased parties around " v. " |
| FixCaseLibrary.ParseCitationPage | src/utils/fix_case_library.py:137-152 | corrected, the page is the first number after the volume, and with none there is no page, year or court |
| FixCaseLibrary.ParseCitationRest | src/utils/fix_case_library.py:150-163 | the year is the last four-digit part after the page and the court the last part after it that is not all digits |
| FixCaseLibrary.ParseUnderscoreCitationSpec | src/utils/fix_case_library.py:87-174 | corrected, a parse's volume has at most four digits, its page is a number or absent, its year four digits or absent, no page means no year or court, and no field holds '_' |
| FixCaseLibrary.CitationPartsExample | src/utils/fix_case_library.py:137-163 | on volume, reporter and court parts with no page number, the as-written parse takes the reporter as page, the corrected one gives no page |
| FixCaseLibrary.PartsExample | src/utils/fix_case_library.py:96-134 | the example's parts put "v" at index 1 and the volume at index 3, so the whole parse agrees with the parse of the citation parts |
| FixCaseLibrary.PageFromReporter | src/utils/fix_case_library.py:137-152 | as written, "A_v_B_123_F3d_Cir" parses with page "F3d", which is not a number, and court "Cir" |
| FixCaseLibrary.NoPageWithoutNumber | src/utils/fix_case_library.py:137-152 | corrected, the same text parses with no page and no court |
| FixCaseLibrary.FormatBluebookSpec | src/utils/fix_case_library.py:206-223 | the citation is empty exactly when the name, volume, reporter or page is missing; otherwise it begins with them and its parenthetical lists a court other than "U.S."/"US" before the year and is left out when both are absent |
| FixCaseLibrary.MergeField | src/utils/fix_case_library.py:254-276 | a parsed component that is given and differs is written over the entry's own value; no other key changes; no message means no change |
| FixCaseLibrary.MergeComponents | src/utils/fix_case_library.py:258-276 | every given parsed component among volume, reporter, page, year and court ends up in the entry; the name is untouched |
| FixCaseLibrary.MergeParsed | src/utils/fix_case_library.py:250-276 | the entry takes the parsed case name and every given parsed component, keeps its reporter when none was parsed and keeps its citation; at most six messages, and none means no change |
| FixCaseLibrary.CleanNameStep | src/utils/fix_case_library.py:278-282 | the cleaned name replaces the case name when it is non-empty; no other key changes |
| FixCaseLibrary.NormalizeReporterStep | src/utils/fix_case_library.py:284-289 | a given reporter is replaced by its normal form; an absent one changes nothing |
| FixCaseLibrary.RegenerateStep | src/utils/fix_case_library.py:291-302 | with the four components present the citation is regenerated from them; otherwise nothing changes |
| FixCaseLibrary.MergeStep | src/utils/fix_case_library.py:237-276 | a parse is tried only when a component is missing or the name holds '_'; the entry then holds the merged name and reporter, every given parsed component, and its old citation |
| FixCaseLibrary.CleanupSteps | src/utils/fix_case_library.py:278-302 | the name is the cleaned merged name unless that is empty, a given reporter is normalised, the citation is regenerated from the four components when all are present and left as it was otherwise; volume, page, year and court are untouched |
| FixCaseLibrary.FixCase | src/utils/fix_case_library.py:226-302 | the fixed entry differs from the original only in the fixed keys; no message means no change; a needed parse's given components are written in; the final name is the cleaned merged name, or the merged name when cleaning gives ""; a given merged reporter ends up normalised; with all four components present the citation is regenerated from them, otherwise the original citation is kept; with an idempotent normaliser the reporter is in normal form |
| CitationText.CapitalizeSameLetters | src/utils/rename_cases.py:139 | `str.capitalize` changes only the case of letters |
| CitationText.CapitalizePartsSpec | src/utils/rename_cases.py:122-130 | capitalising the parts of a word around a separator changes only the case of its letters |
| CitationText.CapitalizePartsSplit | src/utils/rename_cases.py:122-130 | for a separator that is not a letter, splitting the result at it gives the word's own parts, each capitalised |
| CitationText.MapIndexedSpec | src/utils/rename_cases.py:160-177 | each word is replaced in its place by its image, which sees the word's position, and the word count is kept |
| CitationText.MapIndexedLoop | src/utils/rename_cases.py:160-177 | the `enumerate(words)` loop of the title-casing functions builds exactly the indexed image of the words |
| CitationText.ApplyReplacementsLoop | src/utils/rename_cases.py:209-210 | the loop over the replacement table gives the replacements applied in table order |
| CitationText.ApplyRemovesKeys | src/utils/rename_cases.py:209-210 | when no replacement text re-introduces a replaced character, every replaced character is gone afterwards |
| CitationText.ApplySubset | src/utils/rename_cases.py:209-210 | every character afterwards was in the input or in some replacement text |
| CitationText.ApplyAbsent | src/utils/rename_cases.py:209-210 | with no replaced character present, the replacements change nothing |
| CitationText.SanitizeWithSpec | src/utils/rename_cases.py:182-216 | for a table that replaces no whitespace and never re-introduces what it replaces, the sanitised name holds none of the replaced characters, is single-spaced and has no surrounding whitespace |
| CitationText.SanitizeWithIdempotent | src/utils/rename_cases.py:182-216 | for such a table, sanitising a sanitised name changes nothing |
| RenameAllCases.TitleWordSpec | src/utils/rename_all_cases.py:179-200 | "US" in any case becomes "U.S."; every other word changes only in case; listed abbreviations come out in capitals, the first word is capitalised and listed small words after it come out in lower case |
| RenameAllCases.TitleCasePartySpec | src/utils/rename_all_cases.py:179-200 | the title-cased party has the party's words, as many as before, each title-cased in its place |
| RenameAllCases.NormalizeCaseNameSpec | src/utils/rename_all_cases.py:157-176 | an empty name stays empty; a cleaned name with two parties around " v. " becomes those parties stripped and title-cased around " v. "; any other name keeps its word count |
| RenameAllCases.ReplacementsClosed | src/utils/rename_all_cases.py:205-208 | no replaced character is whitespace, and no replacement text holds a replaced character |
| RenameAllCases.SanitizeFilenameSpec | src/utils/rename_all_cases.py:203-213 | the sanitised name holds none of <>:"/\\|?*, is single-spaced and has no surrounding whitespace |
| RenameAllCases.SanitizeFilenameIdempotent | src/utils/rename_all_cases.py:203-213 | sanitising twice is sanitising once |
| RenameAllCases.GenerateBluebookFilenameSpec | src/utils/rename_all_cases.py:216-240 | a file name exists exactly when the volume, normalised reporter, page and year are all non-empty; it is sanitised and sanitising it again changes nothing; with no case name it is the citation alone |
| RenameAllCases.CitationPartSpec | src/utils/rename_all_cases.py:228-238 | the court is in the parenthetical, before the year, exactly when it is non-empty and not "U.S." or "US" |
| RenameAllCases.RemoveYearsSpec | src/utils/rename_all_cases.py:117 | removing the four-digit runs leaves none |
| RenameAllCases.ParseUnderscoreFilenameSpec | src/utils/rename_all_cases.py:38-85 | a match gives the parties around " v. " with spaces for underscores, the normalised reporter, the year group, and a court that is empty exactly when group six is missing or all digits and never holds '_'; no match gives nothing |
| RenameAllCases.ParseUnderscoreNames | src/utils/rename_all_cases.py:62-63 | the case name of the underscore form holds no underscore |
| RenameAllCases.ParseCommaFormSpec | src/utils/rename_all_cases.py:105-127 | the year is empty exactly when the parenthetical has no four-digit run, otherwise four digits taken from it; the court holds no four-digit run and no surrounding whitespace |
| RenameAllCases.ParseCitationFromFilenameSpec | src/utils/rename_all_cases.py:88-137 | the underscore form, the comma form and the citation-only form are tried in that order and the first that matches decides; nothing when none matches; a citation-only result has no case name, year or court |
| RenameAllCases.CitationOnlyHasNoFilename | src/utils/rename_all_cases.py:128-137 | a file name parsed in the citation-only form has no year, so no Bluebook file name comes from it |
| ExtractNames.IsProblematicNameSpec | src/utils/extract_names_from_text.py:17-39 | a name needs recovering unless it has at least five characters, a " v. " or " v " separator, starts with no citation, is no bare reporter citation and is not one of the garbage names |
| ExtractNames.ProperNameExample | src/utils/extract_names_from_text.py:17-39 | "Roe v. Wade" is not a problem name |
| ExtractNames.NotGarbageByInitial | src/utils/extract_names_from_text.py:32-33 | a name whose first letter is not u, w or t is not a garbage name |
| ExtractNames.TitleWordSpec | src/utils/extract_names_from_text.py:174-204 | spellings of "U.S." become "U.S."; listed abbreviations come out in capitals without trailing dots and commas; the first word is capitalised, later listed small words come out in lower case, other words are capitalised in an all-capitals party and kept otherwise |
| ExtractNames.TitleWordIsWord | src/utils/extract_names_from_text.py:186-202 | title-casing a word with no whitespace gives a word with no whitespace |
| ExtractNames.TitleCasePartySpec | src/utils/extract_names_from_text.py:174-204 | an empty party stays empty; the words of the result are the party's words, just as many, each title-cased in its place |
| ExtractNames.CleanPartyNameSpec | src/utils/extract_names_from_text.py:156-171 | an empty name stays empty; otherwise the cleaned name has as many words as the role-stripped, single-spaced name trimmed of spaces, commas and dots |
| ExtractNames.FirstAcceptedSpec | src/utils/extract_names_from_text.py:92-112 | the name found is empty exactly when no candidate is accepted, and otherwise comes from the first accepted candidate, all earlier candidates being rejected |
| ExtractNames.PickCaseNameLoop | src/utils/extract_names_from_text.py:92-112 | the loop over the name patterns, with its skips and its first-hit break, yields the specified name |
| ExtractNames.PickCaseNameSpec | src/utils/extract_names_from_text.py:92-112 | the picked name is empty exactly when no match is accepted; otherwise it comes from the first accepted match, is at least five characters long and holds no garbage phrase |
| ExtractNames.AcceptSpec | src/utils/extract_names_from_text.py:96-112 | an accepted name has at least five characters and holds no garbage phrase |
| ExtractNames.NormalizeWithSpec | src/utils/extract_names_from_text.py:207-245 | the reporter becomes the value of the first entry whose key matches it once spaces and dots are dropped and case ignored, or stays stripped when no entry matches |
| ExtractNames.NormalizeWithIdempotent | src/utils/extract_names_from_text.py:207-245 | over a table whose values are fixed points, normalising twice is normalising once |
| ExtractNames.CanonUS | src/utils/extract_names_from_text.py:209-242 | "U.S." and "US" have the same canonical key |
| ExtractNames.NormalizeUSExample | src/utils/extract_names_from_text.py:209-242 | "US" normalises to "U.S." |
| ExtractNames.NormalizeDottedUSExample | src/utils/extract_names_from_text.py:209-242 | "U.S." is already normal |
| ExtractNames.CircuitCourtSpec | src/utils/extract_names_from_text.py:147-150 | the corrected court keeps the circuit number with its ordinal suffix, followed by " Cir." |
| ExtractNames.SecondCircuitAsWritten | src/utils/extract_names_from_text.py:147-150 | for a "2nd Cir." match the code as written gives "2th Cir.", the corrected version "2nd Cir." |
| ExtractNames.ExtractCaseNameFromTextSpec | src/utils/extract_names_from_text.py:42-153 | there is a result exactly when some name match is accepted; it carries the picked name, a normalised reporter when a citation was found and empty citation parts otherwise, and no court when no circuit was found |
| ExtractNames.FormatBluebookCitationSpec | src/utils/extract_names_from_text.py:248-264 | the citation is empty exactly when name, volume, reporter or page is missing; otherwise it is "name, volume reporter page" followed by a parenthetical of the named court and the year, of either alone, or by none |
| CaseLibraryStore.FindCaseSpec | src/case_library.py:163-168 | the case found is the first with the id; nothing is found exactly when no case has the id |
| CaseLibraryStore.HasCitationSpec | src/case_library.py:218-225 | a citation is a duplicate exactly when some case has the same volume, reporter and page |
| CaseLibraryStore.FindCategory | src/case_library.py:313-318 | a category found is in the library and has the id; none is found exactly when no category has it |
| CaseLibraryStore.AppliedSpec | src/case_library.py:170-189 | an update changes only the category, the keywords and the notes, each exactly when it is supplied |
| CaseLibraryStore.RemoveFirstSpec | src/case_library.py:347-356 | removing a present keyword drops exactly its first occurrence, keeps the others in order and shortens the list by one |
| CaseLibraryStore.KeywordMatchesSpec | src/case_library.py:254-256 | a query matches the keywords exactly when it occurs in one of them, in lower case |
| CaseLibraryStore.SearchSpec | src/case_library.py:229-258 | the search results are the cases, in library order, whose name, citation or some keyword contains the query case-insensitively |
| CaseLibraryStore.FilterByCategorySpec | src/case_library.py:260-264 | an empty category keeps every case; otherwise the result holds exactly the cases of that category |
| CaseLibraryStore.FilterByKeywordSpec | src/case_library.py:266-272 | the result holds exactly the cases with a keyword containing the given one case-insensitively |
| CaseLibraryStore.AllKeywordsSpec | src/case_library.py:331-336 | the collected keywords are exactly the keywords some case has |
| CaseLibraryStore.DedupSpec | src/case_library.py:331-336 | removing repetitions keeps every element, each exactly once |
| CaseLibraryStore.OnceEachDistinct | src/case_library.py:331-336 | a list in which every element counts once has no repetition |
| CaseLibraryStore.SortedKeywordsSpec | src/case_library.py:331-336 | the keywords come out sorted, each once, and are exactly the keywords some case has |
| CaseLibraryStore.CaseFromFilenameSpec | src/case_library.py:699-745 | a case added from a file name takes the stem as its name and citation, has no citation parts or keywords, and names its text file after the stem and the same free counter as its PDF |
| CaseLibraryStore.ImportOneSpec | src/case_library.py:653-695 | each file lands in exactly one result list, and an imported case is the one appended to the library |
| CaseLibraryStore.ImportAllSpec | src/case_library.py:634-697 | every file ends in exactly one result list, none needs more information, and the library grows by exactly the imported cases, in order |
| CaseLibraryStore.ContextWindowHoldsSpan | src/case_library.py:1143-1153 | the context window contains the matched citation |
| CaseLibraryStore.ContextWindowMarks | src/case_library.py:1143-1153 | the window opens with "..." exactly when text before it was cut and ends with "..." when text after it was cut, and is the whole text when nothing was cut |
| CaseLibraryStore.CitationContextSpec | src/case_library.py:1111-1185 | an unparsed citation has a context exactly when it occurs in the text, and the context is the stripped window around its first occurrence |
| CaseLibraryStore.CaseLibrary.constructor | src/case_library.py:42-78 | the library starts with the cases and categories of its index |
| CaseLibraryStore.CaseLibrary.AddCase | src/case_library.py:92-157 | the created case is appended to the library and the categories are unchanged |
| CaseLibraryStore.CaseLibrary.FindCitationContext | src/case_library.py:1111-1185 | no context for an unknown case or an unreadable text file; otherwise the context of the citation in the case's text |
| CaseLibraryStore.CaseLibrary.IndexOf | src/case_library.py:181-183 | the loop finds the position of the first case with the id, or none |
| CaseLibraryStore.CaseLibrary.UpdateCase | src/case_library.py:170-189 | the first case with the id takes the supplied fields and is returned; with no such case nothing changes |
| CaseLibraryStore.CaseLibrary.Delete | src/case_library.py:192-216 | the first case with the id is removed and true returned; false and no change when there is none |
| CaseLibraryStore.CaseLibrary.Search | src/case_library.py:229-258 | the loop returns exactly the cases the query matches, in library order |
| CaseLibraryStore.CaseLibrary.AddCategory | src/case_library.py:302-307 | the new category is appended and the cases are unchanged |
| CaseLibraryStore.CaseLibrary.DeleteCategory | src/case_library.py:320-329 | the first category with the id is removed and true returned, false and no change otherwise; the cases are unchanged |
| CaseLibraryStore.CaseLibrary.AddKeywordToCase | src/case_library.py:338-345 | the keyword is appended to the case with the id when it exists and lacks it; otherwise nothing changes and false is returned |
| CaseLibraryStore.CaseLibrary.RemoveKeywordFromCase | src/case_library.py:347-356 | one occurrence of the keyword is removed from the case with the id when it has it; otherwise nothing changes and false is returned |
| CaseLibraryStore.CaseLibrary.BatchImport | src/case_library.py:634-697 | the library and the result lists are those of importing the files one after the other |
| ExhibitModel.CreateFolder | src/models/exhibit.py:24-35 | a new folder has the given name, parent and colour and was created and modified now |
| ExhibitModel.FolderToDict | src/models/exhibit.py:37-46 | the dict form of a folder has exactly its six keys |
| ExhibitModel.FolderRoundTrip | src/models/exhibit.py:37-57 | a folder survives its dict form |
| ExhibitModel.FolderDefaults | src/models/exhibit.py:47-56 | an empty dict gives an untitled root folder of the default colour, created and modified now |
| ExhibitModel.ExtensionSpec | src/models/exhibit.py:98 | the extension holds no dot, is empty for a name without a dot, and otherwise follows the name's last dot |
| ExhibitModel.CreateExhibit | src/models/exhibit.py:81-120 | a new exhibit keeps the given fields, names its thumbnail after the id, has no size, pages or redacted version, and was added and modified now |
| ExhibitModel.StoredFilenameSpec | src/models/exhibit.py:98-99 | the stored file name is the id, followed by "." and the original extension when there is one |
| ExhibitModel.ExhibitToDict | src/models/exhibit.py:122-141 | the dict form of an exhibit carries its id |
| ExhibitModel.ExhibitRoundTripNames | src/models/exhibit.py:122-165 | the names and titles of an exhibit read back from its dict form |
| ExhibitModel.ExhibitRoundTripFiles | src/models/exhibit.py:122-165 | the thumbnail, tags, folder and dates read back from its dict form |
| ExhibitModel.ExhibitRoundTripRest | src/models/exhibit.py:122-165 | the size, pages, redaction, notes and source read back from its dict form |
| ExhibitModel.ExhibitRoundTrip | src/models/exhibit.py:122-165 | an exhibit survives its dict form |
| ExhibitModel.ExhibitDefaults | src/models/exhibit.py:144-165 | an empty dict gives an untitled exhibit of unknown type with no files, tags, size or redaction, added and modified now |
| ExhibitModel.TagToDict | src/models/exhibit.py:185-186 | the dict form of a tag has exactly its three keys |
| ExhibitModel.TagRoundTrip | src/models/exhibit.py:185-194 | a tag survives its dict form |
| ExhibitModel.DefaultTags | src/models/exhibit.py:197-207 | the default tags are the eight listed names and colours, in order, each with its own fresh id |
| ExhibitModel.KindOfSpec | src/models/exhibit.py:222-228 | over disjoint extension lists the kind is the one listing the extension, whatever the table order, and "other" when none lists it |
| ExhibitModel.FileTypesDisjoint | src/models/exhibit.py:210-219 | no extension of the file-type table is listed under two kinds |
| ExhibitModel.EmptyNotListed | src/models/exhibit.py:210-219 | no kind lists the empty extension |
| ExhibitModel.GetFileTypeSpec | src/models/exhibit.py:222-228 | a file's kind is the one listing its lower-cased extension, and "other" when no kind lists it or the name has no dot |
| ExhibitBankStore.QueryStage | src/exhibit_bank.py:254-262 | the query stage keeps exactly the exhibits whose title, description, notes or original file name contain the query, and all of them for an empty query |
| ExhibitBankStore.TagStage | src/exhibit_bank.py:264-268 | the tag stage keeps exactly the exhibits with one of the tags, and all of them for no tags |
| ExhibitBankStore.TypeStage | src/exhibit_bank.py:270-271 | the type stage keeps exactly the exhibits of the type, and all of them for no type |
| ExhibitBankStore.SearchSpec | src/exhibit_bank.py:235-273 | the three stages together are one filter: the exhibits passing every non-empty filter, in the bank's order |
| ExhibitBankStore.SearchMembers | src/exhibit_bank.py:235-273 | the search result holds exactly the exhibits of the bank that pass every non-empty filter |
| ExhibitBankStore.ExhibitsByTagSpec | src/exhibit_bank.py:313-315 | the exhibits of a tag are exactly those whose tags hold its name, the same list a search by that one tag gives |
| ExhibitBankStore.RedactedCount | src/exhibit_bank.py:450 | the number of redacted exhibits is at most the number of exhibits |
| ExhibitBankStore.ByTypeSpec | src/exhibit_bank.py:440-442 | the counts by type name each type once, give each type its number of exhibits and add up to the total |
| ExhibitBankStore.Updated | src/exhibit_bank.py:174-187 | the supplied title, description, tags, notes and source are set, the modification time is now, and nothing else changes |
| ExhibitBankStore.ExhibitBank.constructor | src/exhibit_bank.py:49-86 | the bank starts with the exhibits and tags of its index |
| ExhibitBankStore.ExhibitBank.AddExhibit | src/exhibit_bank.py:100-159 | a missing file fails with "File not found: " and the given path, and changes nothing; otherwise the created exhibit, of the file's type, with the copy's size and for a PDF its page count, is appended |
| ExhibitBankStore.ExhibitBank.GetExhibit | src/exhibit_bank.py:224-229 | an exhibit found is in the bank and has the id; none is found exactly when no exhibit has it |
| ExhibitBankStore.ExhibitBank.IndexOf | src/exhibit_bank.py:172-173 | the loop finds the position of the first exhibit with the id, or none |
| ExhibitBankStore.ExhibitBank.UpdateExhibit | src/exhibit_bank.py:161-190 | the first exhibit with the id takes the supplied fields and is modified now; with no such exhibit nothing changes |
| ExhibitBankStore.ExhibitBank.DeleteExhibit | src/exhibit_bank.py:192-222 | the first exhibit with the id is removed and true returned; false and no change when there is none |
| ExhibitBankStore.ExhibitBank.Search | src/exhibit_bank.py:235-273 | the result is the bank narrowed by the query, then the tags, then the file type |
| ExhibitBankStore.ExhibitBank.AddTag | src/exhibit_bank.py:297-302 | the new tag is appended and the exhibits are unchanged |
| ExhibitBankStore.ExhibitBank.DeleteTag | src/exhibit_bank.py:304-311 | the first tag with the id is removed and true returned, false and no change otherwise; the exhibits are unchanged |
| ExhibitBankStore.ExhibitBank.GetStats | src/exhibit_bank.py:437-451 | the totals are the numbers of exhibits and tags, the summed sizes and the redacted count, and the type counts are the tally of the exhibits' types |
| LawsuitModel.NewLawsuit | src/models/lawsuit.py:46-83 | a new lawsuit keeps the given fields, is open, carries the exhibit tag "Case " followed by its number, and was created and modified now |
| LawsuitModel.FieldIndex | src/models/lawsuit.py:210-212 | a key has a position exactly when it names a lawsuit field, and the position is that field's |
| LawsuitModel.SetAtSpec | src/models/lawsuit.py:210-212 | setting the field at one position changes that field and no other |
| LawsuitModel.FieldsDetermine | src/models/lawsuit.py:27-44 | two lawsuits with the same fields are equal |
| LawsuitModel.FieldOf | src/models/lawsuit.py:211 | a field is read exactly for keys that name a field |
| LawsuitModel.SetFieldSpec | src/models/lawsuit.py:210-212 | setting by key changes that field and no other, and an unknown key changes nothing |
| LawsuitModel.LastValue | src/models/lawsuit.py:210 | the last value given for a key is absent exactly when no argument names it, and otherwise is one of the values given for it |
| LawsuitModel.ApplyKwargsSpec | src/models/lawsuit.py:210-212 | after the keyword arguments each field holds the last value given for it, or keeps its value when none is |
| LawsuitModel.UpdatedSpec | src/models/lawsuit.py:206-217 | an updated lawsuit is modified now whatever the arguments say, and every other field holds the last value supplied for it or keeps its value |
| LawsuitModel.ModifiedKeepsOthers | src/models/lawsuit.py:213 | stamping the modification time leaves every other field as it was |
| LawsuitModel.LawsuitToDict | src/models/lawsuit.py:85-103 | a lawsuit's dict form is a dict |
| LawsuitModel.LawsuitRoundTripCase | src/models/lawsuit.py:85-124 | the case fields read back from the dict form |
| LawsuitModel.LawsuitRoundTripParties | src/models/lawsuit.py:85-124 | the parties, status, tag, notes and dates read back from the dict form |
| LawsuitModel.LawsuitRoundTrip | src/models/lawsuit.py:85-124 | a lawsuit survives its dict form |
| LawsuitModel.LawsuitDefaults | src/models/lawsuit.py:105-124 | an empty dict gives an open lawsuit with a fresh id, dated now, every other field empty |
| LawsuitModel.ByDocketNumberTotal | src/models/lawsuit.py:243 | ordering entries by docket number is total |
| LawsuitModel.DocketEntriesSpec | src/models/lawsuit.py:230-243 | a case's docket entries are exactly its entries in the index, each as often as there, in ascending order of docket number |
| LawsuitModel.SortedByNumber | src/models/lawsuit.py:243 | a list sorted by the docket-number order has ascending docket numbers at every pair of positions |
| LawsuitModel.Find | src/models/lawsuit.py:188-200 | the lawsuit found is the first satisfying the test; none is found exactly when no lawsuit does |
| LawsuitModel.ExhibitsForSpec | src/models/lawsuit.py:289-307 | without an exhibit index or a lawsuit there are no exhibits; otherwise exactly the indexed exhibits carrying the lawsuit's exhibit tag |
| LawsuitModel.SummarySpec | src/models/lawsuit.py:432-445 | the summary counts the case's docket entries; its latest entry is absent exactly when the case has none and otherwise is an entry of the case with the largest docket number; entries with documents are at most all entries |
| LawsuitModel.SummaryLawsuitSpec | src/models/lawsuit.py:432-445 | without a lawsuit of that number the status is "Unknown", the short name empty and no exhibits are counted; without a docket index there are no entries |
| LawsuitModel.LawsuitManager.constructor | src/models/lawsuit.py:140-169 | the manager starts with the lawsuits of its index |
| LawsuitModel.LawsuitManager.CreateLawsuit | src/models/lawsuit.py:181-186 | the created lawsuit is appended |
| LawsuitModel.LawsuitManager.IndexWhere | src/models/lawsuit.py:190-193 | the loop finds the position of the first lawsuit passing the test, or none |
| LawsuitModel.LawsuitManager.GetLawsuit | src/models/lawsuit.py:188-193 | the result is the first lawsuit with the id |
| LawsuitModel.LawsuitManager.GetLawsuitByNumber | src/models/lawsuit.py:195-200 | the result is the first lawsuit with the case number |
| LawsuitModel.LawsuitManager.UpdateLawsuit | src/models/lawsuit.py:206-217 | the first lawsuit with the id takes the keyword arguments that name fields and is modified now; with no such lawsuit nothing changes |
| LawsuitModel.LawsuitManager.DeleteLawsuit | src/models/lawsuit.py:219-226 | the first lawsuit with the id is removed and true returned; false and no change when there is none |
| LawsuitModel.LawsuitManager.GetCaseSummary | src/models/lawsuit.py:432-445 | the summary is the one specified over the lawsuits and the two indexes |
| DocumentStore.UpsertedSpec | src/storage.py:147-161 | a save grows the stored list by at most one dict, grows it exactly when no dict had the id, holds the saved dict, and changes no dict but one with the id |
| DocumentStore.SaveThenLookup | src/storage.py:117-161 | after a save, looking the document up by its id gives the saved document back |
| DocumentStore.SaveKeepsOthers | src/storage.py:117-161 | a save leaves what every other id looks up to as it was |
| DocumentStore.NewestFirstTotal | src/storage.py:114 | ordering by modification time, newest first, is total |
| DocumentStore.DecodeAll | src/storage.py:111 | decoding the stored dicts gives one document per dict |
| DocumentStore.SortedNewestFirst | src/storage.py:114 | a list sorted newest first has non-increasing modification times at every pair of positions |
| DocumentStore.ListAllSpec | src/storage.py:103-115 | the listing holds the stored documents, each as often as stored, newest first |
| DocumentStore.CopyOf | src/storage.py:297-314 | the copy has a fresh id, is dated now, is named as given or "Copy of" the original's name, carries the original's text, sections, choices and spacing, and has no case id, PDF or annotations |
| DocumentStore.DocumentStorage.constructor | src/storage.py:43-60 | the storage starts with the stored document dicts |
| DocumentStore.DocumentStorage.IndexOf | src/storage.py:150-154 | the loop finds the position of the first stored dict with the id, or none |
| DocumentStore.DocumentStorage.GetById | src/storage.py:117-131 | the result is the document of the first stored dict with the id, or none |
| DocumentStore.DocumentStorage.Save | src/storage.py:133-168 | the document, modified now, replaces the stored dict with its id or is appended |
| DocumentStore.DocumentStorage.Delete | src/storage.py:170-201 | the first stored dict with the id is removed and true returned; false and no change when there is none |
| DocumentStore.DocumentStorage.Rename | src/storage.py:203-218 | a found document takes the new name and is saved, modified now; an unknown id changes nothing |
| DocumentStore.DocumentStorage.Duplicate | src/storage.py:285-314 | a copy of a found document is saved under a fresh id; an unknown id changes nothing |
| DocumentStore.DocumentStorage.CreateNew | src/storage.py:272-283 | an empty document with the name is created and saved |
| DocumentStore.DocumentStorage.ListAll | src/storage.py:103-115 | the listing is the stored documents newest first |
| SavedDocumentModel.AnnotationToDict | src/models/saved_document.py:31-40 | an annotation's dict form is a dict |
| SavedDocumentModel.AnnotationRoundTrip | src/models/saved_document.py:31-52 | an annotation survives its dict form |
| SavedDocumentModel.AnnotationDefaults | src/models/saved_document.py:42-52 | an empty dict gives a yellow annotation of nothing at position 0, with a fresh id, created now |
| SavedDocumentModel.EncodeItems | src/models/saved_document.py:121 | encoding keeps one entry per annotation |
| SavedDocumentModel.DecodeItems | src/models/saved_document.py:128-129 | decoding keeps one annotation per entry |
| SavedDocumentModel.ItemsRoundTrip | src/models/saved_document.py:121-129 | an annotation list survives its dict form unless a passed-through value is itself a dict |
| SavedDocumentModel.NewDocument | src/models/saved_document.py:56-101 | a new document has the id, the name and the creation and modification time given |
| SavedDocumentModel.DocumentToDict | src/models/saved_document.py:103-122 | a document's dict form carries its id |
| SavedDocumentModel.DocumentRoundTripHead | src/models/saved_document.py:103-148 | the id, name, dates, text, sections and case profile read back from the dict form |
| SavedDocumentModel.DocumentRoundTripTail | src/models/saved_document.py:103-148 | the case id, document type, title, spacing, filing date, PDF and annotations read back from the dict form |
| SavedDocumentModel.DocumentRoundTrip | src/models/saved_document.py:103-148 | a document whose annotations are objects or non-dict values survives its dict form |
| SavedDocumentModel.DocumentDefaults | src/models/saved_document.py:124-148 | an empty dict gives the untitled document of the default profile and type, single spacing, no case id and no PDF, the document a plain construction gives |
| SavedDocumentModel.UpdateModified | src/models/saved_document.py:150-152 | the modification time becomes now and nothing else changes |
| CaseLawExtractor.LastMatchedBelow | src/case_law_extractor.py:281-284 | the last matched group below a bound is below it, or 0 when none matched |
| CaseLawExtractor.LastMatchedBelowAtLeast | src/case_law_extractor.py:281-284 | a group that matched is at most the last matched group |
| CaseLawExtractor.CitationYearSpec | src/case_law_extractor.py:273-302 | the year is group 8 when it matched, else the first four digits of a matched group 7, else none; a citation is rejected exactly when it has a year outside 1800 to 2025 |
| CaseLawExtractor.CloseYearFromSpec | src/case_law_extractor.py:316 | the lazy scan finds the first place on the line where four digits close the parenthetical, and fails exactly when there is none |
| CaseLawExtractor.ParenYearFromSpec | src/case_law_extractor.py:316 | from a position on, a year is found exactly when some parenthesis is followed on its line by four digits and ")", and the year found closes such a parenthetical |
| CaseLawExtractor.ParenYearSpec | src/case_law_extractor.py:316 | a year is found in a text exactly when some parenthetical on one line ends in four digits, and the year found is four digits that end one |
| CaseLawExtractor.YearWindowSpec | src/case_law_extractor.py:313-316 | the window around a match holds the match and at most ten characters before and fifty after it |
| CaseLawExtractor.ReporterCitationSpec | src/case_law_extractor.py:304-330 | a reporter citation is accepted only with a year from 1800 to 2025, its own parenthetical's or else one closing a parenthetical in the window around it; with neither it is rejected |
| CaseLawExtractor.ReporterPassSpec | src/case_law_extractor.py:224-250 | the reporter pass only adds spans, each added span overlaps no other span, and every valid non-empty match ends up overlapping some found span |
| CaseLawExtractor.InRePassSpec | src/case_law_extractor.py:207-222 | the in-re pass adds the spans of all valid matches, and a valid match whose span is new at its turn is kept as a citation |
| CaseLawExtractor.FullPassSpec | src/case_law_extractor.py:191-205 | the full-citation pass keeps exactly the valid matches, in order, and records their spans |
| CaseLawExtractor.IdPassSpec | src/case_law_extractor.py:252-259 | the short-citation pass keeps one citation per match and records no span |
| CaseLawExtractor.SupraPassSpec | src/case_law_extractor.py:261-269 | the reference pass keeps one citation per match and records no span |
| CaseLawExtractor.ExtractSpec | src/case_law_extractor.py:176-271 | the citations of a text are the case citations of the first three passes, followed by one short citation and one reference per match, the first pass giving exactly the valid full citations |
| CaseLawExtractor.RunPass | src/case_law_extractor.py:191-250 | the loop of a pass leaves the citations and spans the pass specifies |
| CaseLawExtractor.ExtractFromText | src/case_law_extractor.py:176-271 | the method returns the specified citations of the text |
| CaseLawExtractor.Preview | src/case_law_extractor.py:36-41 | a text of at most 80 characters is its own preview; a longer one shows its first 80 characters followed by "..." |
| CaseLawExtractor.CollectSound | src/case_law_extractor.py:344-355 | every paragraph collected is one of the dictionary with its own text and the citations found in it, at least one |
| CaseLawExtractor.CollectIncreasing | src/case_law_extractor.py:344-355 | over increasing paragraph numbers the collected paragraphs come in increasing order |
| CaseLawExtractor.CollectComplete | src/case_law_extractor.py:344-355 | every listed paragraph in which citations are found is collected |
| CaseLawExtractor.SortedKeysIncrease | src/case_law_extractor.py:344 | the sorted paragraph numbers increase strictly and are exactly the dictionary's keys |
| CaseLawExtractor.FromParagraphsSpec | src/case_law_extractor.py:332-355 | the paragraphs come in ascending order of number, each with its own text and its citations, at least one, and every paragraph with citations is among them |
| CaseLawExtractor.ExtractFromParagraphs | src/case_law_extractor.py:332-355 | the loop over the sorted paragraph numbers returns the specified paragraphs |
| CaseLawExtractor.TotalCitationsSpec | src/case_law_extractor.py:371 | the total in the header is the number of citations listed, at least the number of paragraphs when none is empty |
| CaseLawExtractor.NoCitationsUntitled | src/case_law_extractor.py:367-368 | the "no citations" text does not open with the report title |
| CaseLawExtractor.ReportSpec | src/case_law_extractor.py:357-397 | the report is the "no citations" text exactly when there are no paragraphs; otherwise it opens with its title, and its header counts every citation of every paragraph and the paragraphs |
| CaseLawExtractor.AppendParagraph | src/case_law_extractor.py:378-395 | the inner loop appends exactly the lines of one paragraph |
| CaseLawExtractor.GenerateReport | src/case_law_extractor.py:357-397 | the method returns the specified report |
| PdfExport.OrdinalSuffixSpec | src/pdf_export.py:28-32 | a day of the month takes "st" exactly on the 1st, 21st and 31st, "nd" on the 2nd and 22nd, "rd" on the 3rd and 23rd, and "th" on every other day |
| PdfExport.ParseDateMDY | src/pdf_export.py:27 | every calendar date written as two-digit month, two-digit day and four-digit year parses back to itself |
| PdfExport.FormatDateMDY | src/pdf_export.py:21-36 | a calendar date written month/day/year is rendered as "<day><suffix> day of <Month>, <year>" |
| PdfExport.ParsedChars | src/pdf_export.py:27 | a string that parses as a date holds only digits, slashes and spaces |
| PdfExport.FormatDateUnchanged | src/pdf_export.py:21-39 | the input comes back unchanged exactly when it does not parse as a date |
| PdfExport.FormatDateExample | src/pdf_export.py:22-25 | "11/23/2025" becomes "23rd day of November, 2025" |
| PdfExport.FormatDateInvalidExample | src/pdf_export.py:37-39 | "02/30/2025", a day the calendar lacks, is returned as written |
| PdfExport.PageNumberSpec | src/pdf_export.py:171-181 | only the first page is unnumbered, and every later page shows its own number |
| PdfExport.UpperComma | src/pdf_export.py:262-271 | upper-casing a party name keeps its commas |
| PdfExport.CaptionLabelSpec | src/pdf_export.py:262-275 | each label is singular or plural, and plural exactly when the party name has a comma or, in any letter case, "et al" |
| PdfExport.CaptionLabelIgnoresCase | src/pdf_export.py:262-275 | the letter case of a party name does not change its label |
| PdfExport.SafeTextEach | src/pdf_export.py:639 | the three chained replacements escape each character on its own, "&" first so the new entities stay intact |
| PdfExport.EscapeEachNoAngles | src/pdf_export.py:639 | escaped text holds no raw "<" or ">" |
| PdfExport.UnescapeEscape | src/pdf_export.py:639 | unescaping escaped text gives the text back |
| PdfExport.ParagraphLineSpec | src/pdf_export.py:637-641 | an emitted numbered paragraph holds no raw "<" or ">" and its text can be read back from it |
| PdfExport.EmitOrderKeys | src/pdf_export.py:582-583 | every paragraph number emitted is a key of the paragraphs |
| PdfExport.EmitOrderSpec | src/pdf_export.py:582 | the paragraphs are emitted each once, in strictly ascending order of number |
| PdfExport.EmitParagraphs | src/pdf_export.py:582-641 | the paragraph loop emits one line per paragraph, in ascending order of number |
| PdfExport.SubsectionMapSpec | src/pdf_export.py:562-568 | a paragraph has an entry exactly when some subsection row names it, and the entry lists those subsections in order; other rows are ignored |
| PdfExport.SubsectionMapDistinct | src/pdf_export.py:562-568 | the subsection map never holds a paragraph number twice |
| PdfExport.BuildSubsectionMap | src/pdf_export.py:562-568 | the loop builds the specified subsection map |

## Left out

- Regular expressions are not modelled. The affected code is the docket patterns, the citation patterns, the Westlaw header and file-name parsers, `normalize_case_name`, `clean_party_name` and the pattern-based reporter normalisers. A match is a parameter: a predicate, a capture function or a list of match records with spans and groups. Only the control flow around the matches is modelled: precedence, de-duplication, overlap and the `None`/`''` cases. The one search written out in full is the nearby-year search `\(.*?(\d{4})\)` of the citation extractor.
- `upper`, `lower`, `isdigit` and `strip` cover ASCII letters, ASCII digits and a fixed whitespace set only. Unicode case mapping is not modelled.
- The clock (`datetime.now()`) and `uuid.uuid4()` are parameters. Timestamps are the strings the program would store.
- File-system and JSON persistence is not modelled: loading and saving index files, copying and moving files, path checks, glob, and reading extracted text. Each store's list is a field. What an operation would read from disk is a parameter: whether a file exists, its size, its page count, and an index file read as `None` or a list.
- PDF, OCR and image work, all calls into fitz, pytesseract, PIL and reportlab, is not modelled. This covers `extract_text`, `extract_first_page_text`, `extract_citation_from_pdf`, thumbnails, `create_redacted_version`, `_get_pdf_page_count`, `save_pdf`, fonts, styles, spacers and the caption and signature layout of `generate_pdf` and `generate_pdf_bytes`.
- The PyQt widgets, menus, the section tree and the dialogs of `src/app.py` are not modelled. A name entered in a dialog is the `ok`/`name` parameter pair. `_rename_section` and `_update_tree` are widget code over the shared `Section` objects and are not modelled.
- `CaseLibrary`: the path helpers (`get_pdf_path`, `get_txt_path`, `get_case_text`) are not modelled. Neither are `search_full_text`, the Westlaw parsers, `extract_citations_from_text`, the citation files, `regenerate_citations_for_case`, `regenerate_all_citations`, `parse_citation_components`, `find_citation_in_library` and `_normalize_reporter`, because all of them are regular expressions or file reads.
- `LawsuitManager`: `extract_pdf_text`, `extract_docket_texts`, `_save_entry_text`, `add_exhibit_tag`, `generate_full_docket_txt` and `export_case_json` are not modelled. They are file reads and writes and report layout.
- `LawsuitModel.ApplyKwargsSpec`: keyword arguments of `update_lawsuit` are string-valued. A non-string value for a string attribute is not modelled.
- JSON values of the wrong type make `from_dict` fail (`None`), where Python would store the value as it is.
- The text layout of `format_deadline_report`, `analyze_case_docket`, `Document.get_full_text` and the per-paragraph lines of `generate_report` is not modelled beyond the counts, the header and the order that the contracts state.
- The drivers are not modelled: `run_fix`, `rename_cases`, `process_non_indexed_files`, `run_extraction`, `find_actual_file` and the `main()` functions. They loop over the index on disk and print.
- Floating point is not modelled. The compliance score is held in tenths of a percent and `percent_complete` in whole percent, both rounded to the nearest value. The model does not fix which neighbour wins on an exact tie, where Python's float `round` halves to even. `total_size_mb` of the exhibit statistics is left out; `total_size_bytes` is modelled.
- `AuditResults.AuditLog.UpdateProgress`: requires a positive `total_items`. The source divides by it and raises `ZeroDivisionError` at zero.
- `AuditResults.AuditLog.AddItemResult`: requires a positive `total_items` too, because it calls `update_progress`. The zero-total case, where the source raises `ZeroDivisionError`, is not modelled.
- `SavedDocumentModel.DocumentFromDict`, `SavedDocumentModel.DecodeItems` and `DocumentStore.DecodeAll`: one `freshId` parameter stands for every `uuid.uuid4()` drawn during a decode. The source draws a new id for each record without one. Two records without ids decoded together therefore get equal ids in the model, which the program never produces. The model does not promise that generated ids are distinct.
- `FixCaseLibrary.FixCase` and `FixCaseLibrary.MergeStep` parse with the corrected `ParseUnderscoreCitation`, not with the code as written at `src/utils/fix_case_library.py:137-152`. They differ from the program when no all-digit part follows the reporter: on "A_v_B_123_F3d_Cir" the program stores page "F3d" and court "Cir", the model stores no page and no court.
- `ExtractNames.ExtractCaseNameFromTextSpec` and the extraction it describes form the court with the corrected `CircuitCourt`, not with the code as written at `src/utils/extract_names_from_text.py:147-150`. They differ from the program on every circuit ordinal not ending in "th": on "(2nd Cir.)" the program gives "2th Cir." and the model "2nd Cir.".
- `LawsuitModel.SetFieldSpec`: only the fifteen data fields of a lawsuit can be set. Python's `hasattr` at `src/models/lawsuit.py:211` is also true for method names and dunder attributes, and `setattr` would then overwrite those. The model ignores such keys.
- `calculate_deadline` rolls off Saturday and Sunday only. Legal holidays are not handled, as in the source. Dates are day numbers, and the parsing of ISO date strings by `strptime` is not modelled.
- `ExtractNames.NormalizeWithIdempotent`: idempotence is proved for every table whose values are fixed points. That the concrete 25-entry reporter table of `src/utils/extract_names_from_text.py` is such a table is checked on examples only (`ExtractNames.NormalizeUSExample`, `ExtractNames.NormalizeDottedUSExample`), not for every entry.
- The ids of `Category.create` and the default categories of a new case library are taken as given records. Fresh ids come from `uuid4`.
- The audit detector that produces item statuses is not part of the source shown and is not modelled. Statuses arrive as inputs.
- `src/mock_data.py`, `src/utils/test_rename.py` (apart from its expected normalisations) and the package `__init__` files are not modelled.

## Findings

| source | as written | input that shows it | evidently intended | confidence | as-written member | corrected member |
|---|---|---|---|---|---|---|
| src/models/document.py:210-219 | each paragraph's old number is replaced by its new number at the first occurrence in each list, one paragraph after another, so a new number can be taken for an old one later | section I refers to paragraph 2 and section II to paragraph 1: the references become [2], [2] and section I shows paragraph "A" instead of "B" | every reference is renumbered by its position, so each section keeps showing the paragraph it showed | not executed | DocumentModel.RenumberCollision | DocumentModel.RenumberByPositionSpec |
| src/utils/fix_case_library.py:137-152 | `page_idx` starts at 1, so when no all-digit part follows the reporter the page is the reporter's first part and the later parts become the court | "A_v_B_123_F3d_Cir" gives page "F3d" and court "Cir" | no page (and no court) when no number follows the reporter | not executed | FixCaseLibrary.PageFromReporter | FixCaseLibrary.NoPageWithoutNumber |
| src/utils/extract_names_from_text.py:147-150 | the court is the circuit number followed by "th Cir.", whatever ordinal the text used | "(2nd Cir.)" gives "2th Cir." | the ordinal as written: "2nd Cir." | not executed | ExtractNames.SecondCircuitAsWritten | ExtractNames.CircuitCourtSpec |

In the first finding, `DocumentModel.Document.RenumberParagraphs` is the model of `renumber_paragraphs` itself, so it keeps the renumbering as the source writes it. No other part of the model renumbers. `DocumentModel.RenumberNumbering` shows that its paragraph dictionary is right when no paragraph is referenced twice; `DocumentModel.RenumberCollision` shows that its section references can still be wrong. The corrected function is `DocumentModel.RenumberByPosition`. In the other two findings, the rest of the model uses the corrected functions: `FixCaseLibrary.FixCase` parses with `ParseUnderscoreCitation`, and `ExtractNames` forms the court with `CircuitCourt`.
