# Validador RGC: template filling and review state

Validador RGC previews the records of a CSV file of telecom offers through a
`.docx`-derived HTML template. It fills each `{{key}}` placeholder with the
record's value. It sends each record to an external reviewer and overlays the
returned remarks on the filled template. It tracks a validation status per
record. The repository holds two variants of one React component:

- `index.js`, the later one. It has a dynamic placeholder-to-column mapping,
  per-record statuses, a two-step load (format choice, then either the
  default mapping or a generated template with an identity mapping) and a
  batch validation loop.
- `index.tsx`, the earlier one. It uses the fixed default mapping, has no
  statuses, filters on the fixed `CODIGO_ANATEL` column, and moves the
  selection to the first shown record whenever the shown records change.

The model is split into these modules:

- `Text` (`text.dfy`): the string operations the component relies on.
  - `trim` over the ECMAScript whitespace set.
  - Global replacement of a literal, leftmost and non-overlapping.
  - Per-character substitution.
  - Code-point ordering for `sort`.
  - ASCII lower-casing.
- `Tables` (`tables.dfy`): the table-level rules.
  - Dropping blank rows after parsing.
  - The default mapping and its 35 column names.
  - The foreign-layout test.
  - The identity mapping.
  - The shown records with their original positions.
  - The sorted, distinct filter codes.
  - The header search.
- `Resolve` (`resolve.dfy`): `getValue` in both variants, the derived
  validity interval, and the record sent to the reviewer.
- `Annotations` (`annotations.dfy`): feedback items, the first-match
  lookup, statuses, and the reviewer's reply as an abstract datatype.
- `Template` (`template.dfy`): placeholder scanning, key extraction,
  attribute escaping, the feedback span, rendering as a fold of global
  replacements (and the loop that performs it), and the earlier variant's
  header fragments.
  - The main theorem views a template as text and placeholder pieces.
    Rendering replaces every placeholder with its replacement and leaves all
    text outside placeholders as it was.
- `ReviewApp` (`review_app.dfy`): the later component.
  - The state is a value `State`. Each handler is a transition function on
    it.
  - The class `App` holds the same fields and updates them in place. Each
    method is proved to perform its transition.
- `LegacyApp` (`legacy_app.dfy`): the earlier component, built the same way.
- `Optional`, `Seqs` (`util.dfy`): `Option` and an order-preserving filter.

## Model

| member | source | states |
|---|---|---|
| Text.Trim | index.js:91 | the result has no whitespace at either end and is a contiguous slice of the input |
| Text.TrimPadded | index.js:91 | trimming a trimmed text padded with whitespace on both sides gives back that text |
| Text.ReplaceAbsent | index.js:101-102 | a global replacement of a pattern that does not occur leaves the text unchanged |
| Text.ReplaceCharIsSubst | index.js:97 | globally replacing a one-character pattern is per-character substitution |
| Text.LexLessIrreflexive | index.js:425 | the sort order never puts a string before itself |
| Text.LexLessTransitive | index.js:425 | the sort order is transitive |
| Text.LexLessTotal | index.js:425 | any two distinct strings are ordered one way or the other |
| Text.ToLowerAscii | index.tsx:732 | lower-casing keeps the length, changes only the capitals A to Z, and leaves no capital |
| Text.ToLowerIdempotent | index.tsx:732 | lower-casing twice is lower-casing once |
| Annotations.FindFeedback | index.js:93 | no item is found exactly when no item has the key; a found item is the first with the key |
| Annotations.GeneralFeedback | index.js:108 | the banner item is the first "general" item of the list, and there is none exactly when no item is "general" |
| Tables.KeepNonBlank | index.js:550-552 | a row is kept exactly when some header's cell is non-blank after trimming, every copy of it; kept rows keep their order |
| Tables.ForeignLayoutThreshold | index.js:509-519 | a table counts as foreign exactly when at most 24 of its headers are among the 35 default column names |
| Tables.ForeignLayoutMonotone | index.js:513 | leaving out headers, wherever they stand, never turns a foreign table into a recognised one |
| Tables.IdentityMapResolves | index.js:651-654 | the generated mapping maps exactly the file's headers, each to its own column |
| Tables.KeepCode | index.js:444 | the filtered rows are exactly those whose code equals the filter, with original positions, in load order |
| Tables.WithIndexInLoadOrder | index.js:431-434 | every row appears tagged with its own position, in load order |
| Tables.FilterKeepsOrder | index.js:444 | filtering a view in load order keeps it in load order |
| Tables.Displayed | index.js:428-445 | the shown records are in load order with their original positions; with a filter and a usable code column, exactly those with that code, otherwise all |
| Tables.DisplayedFixed | index.tsx:342-355 | the earlier variant shows exactly the records whose `CODIGO_ANATEL` equals the filter, or all records when there is no filter, in load order |
| Tables.Insert | index.js:425 | inserting into a strictly sorted list keeps it strictly sorted and adds exactly that value |
| Tables.SortDistinct | index.js:424-425 | the result is strictly sorted (so without duplicates) and holds exactly the input's values |
| Tables.ColumnValues | index.js:424 | the collected values are exactly the non-empty cells of the column |
| Tables.FilterCodes | index.js:418-426 | the filter codes are strictly sorted and are exactly the non-empty codes of the mapped column, none when the column is unusable |
| Tables.FilterCodesFixed | index.tsx:336-340 | the earlier variant's codes are strictly sorted and are exactly the non-empty `CODIGO_ANATEL` values |
| Tables.SearchHeaders | index.tsx:731-732 | a header is kept, every copy of it, exactly when its lower-cased name contains the lower-cased term; order kept; an empty term keeps all |
| Tables.SearchIgnoresCase | index.tsx:731-732 | two terms that differ only in ASCII case show the same headers |
| Resolve.IntervalForms | index.js:76-80 | the interval reads "De s até e", "A partir de s", "Até e" or "", each exactly when its dates are present |
| Resolve.ValueEmpty | index.js:70-83 | the value is "" without a mapping; for other keys, exactly when the key is unmapped or its cell is empty or missing |
| Resolve.VariantsAgree | index.tsx:161-175 | both variants give the same value except for the interval when a date key is unmapped, where the later one reads the interval column |
| Resolve.VariantsDisagreeWithoutStartDate | index.tsx:163-170 | with only the end date mapped, the earlier variant derives "Até …" while the later reads the interval column |
| Resolve.ReviewPayload | index.js:728-732 | the record sent to the reviewer has exactly the mapping's keys |
| Resolve.ReviewPayloadMatchesPreview | index.js:728-732 | each sent value is the mapped cell, which is what the preview shows for every key but the interval |
| Template.TokenAt | index.js:88 | a match at the start is a placeholder literal, and it is the only prefix that is one |
| Template.Scan | index.js:88 | every matched literal is `{{`, one or more non-brace characters, `}}` |
| Template.ScanWithoutOpening | index.js:88 | a template without `{{` has no matches |
| Template.StripBraces | index.js:91 | removing all braces from a placeholder literal leaves its inner text |
| Template.KeyOfPadded | index.tsx:200 | a placeholder whose inner text is a key padded with whitespace names that key, so `{{ k }}` and `{{k}}` name the same key |
| Template.EscapeRefComposes | index.js:97 | the two quote replacements in sequence equal the per-character escaping |
| Template.EscapeAttrIsPerCharacter | index.js:97 | the escaping as written equals the per-character reference escaping |
| Template.EscapeAttrQuoteFree | index.js:97 | the escaped message contains neither `"` nor `'`, and no `{` unless the message had one |
| Template.AnnotationUsesFirstItem | index.js:93-99 | a key with a remark is wrapped in a span of class `has-feedback feedback-<severity>` of the first remark, carrying its escaped message |
| Template.NoAnnotationWithoutItem | index.js:94-95 | a key without remarks is replaced by its bare value |
| Template.RenderHtml | index.js:85-106 | the replacement loop computes the rendering: "" for an empty template, otherwise each matched literal in order replaced globally |
| Template.RenderWithoutPlaceholder | index.js:85-106 | a template without `{{` renders unchanged |
| Template.ScanFindsHoles | index.js:88 | in a template whose only braces are in well-formed placeholders, the matches are exactly its placeholders, in order |
| Template.ReplaceInPieces | index.js:101-102 | a global replacement of a placeholder literal replaces exactly its occurrences as placeholders and leaves the text between them |
| Template.RenderStepsFillsAll | index.js:90-103 | folding the replacements over all matches replaces every placeholder, each occurrence of a repeated key alike |
| Template.RenderFillsEveryPlaceholder | index.js:85-106 | rendering such a template, with brace-free values and remarks, equals the template with each placeholder replaced by its replacement and the text outside unchanged |
| Template.RenderLeavesNoPlaceholder | index.js:85-106 | the rendering of such a template contains no placeholder |
| Template.FragmentAgreesWithTemplate | index.tsx:178-191 | the header fragment is a span exactly when some remark is about the key; it holds the key's value; a span carries the first remark's severity class and escaped message, as the template path's span does; a bare fragment is the template path's bare value |
| Preview.RenderLeavesBlankKeysEmpty | index.js:70-106 | rendering a record under the later lookup fills every placeholder, and every occurrence of a key that is unmapped or whose cell is empty stands for "", wrapped only when a remark is about it |
| Preview.RenderFixedLeavesBlankKeysEmpty | index.tsx:161-216 | the same for the earlier variant's lookup |
| ReviewApp.ErrorTextKeepsMessage | index.js:773 | the invalid-key text appears exactly when the message mentions an invalid key; otherwise the message follows the prefix in full |
| ReviewApp.ReviewOutcome | index.js:756-777 | a finished request always ends in success or error with at least one remark |
| ReviewApp.OutcomeCases | index.js:756-777 | success exactly for an empty list, with the general success item; a non-empty list verbatim; any other reply one general error item with the raised message |
| ReviewApp.OutcomeBanner | index.js:761-775 | a reply other than a reported list leaves a general banner whose severity is "success" exactly for an empty list |
| ReviewApp.Initial | index.js:362-392 | the initial state is consistent: nothing loaded, nothing in flight |
| ReviewApp.FreshStatuses | index.js:447-455 | the initial statuses cover exactly the positions of the table, all not validated |
| ReviewApp.InitialStatuses | index.js:449-452 | the status loop builds the initial statuses |
| ReviewApp.Uploaded | index.js:548-556 | the upload keeps the state consistent |
| ReviewApp.Loaded | index.js:521-539 | loading with no request in flight yields a consistent state |
| ReviewApp.LoadResets | index.js:521-539 | after loading, the table and mapping are installed, feedback is empty, every record is not validated, the filter is cleared, record 0 is selected exactly when there are rows, the template changes only for a non-empty new one, and nothing is pending |
| ReviewApp.Processed | index.js:509-519 | the format step keeps the state consistent |
| ReviewApp.ProcessedBranches | index.js:509-519 | the table waits for a template exactly when at most 24 headers match; otherwise it loads under the default mapping keeping the template |
| ReviewApp.FormatSkipped | index.js:566-569 | skipping the formatting keeps the state consistent |
| ReviewApp.TemplateGenerated | index.js:628-666 | template generation keeps the state consistent |
| ReviewApp.GeneratedTemplateLoads | index.js:628-666 | a generated template loads the pending table under the identity mapping; a failed request closes the choice and keeps the pending table |
| ReviewApp.TemplateChoiceClosed | index.js:668-671 | closing the choice keeps the state consistent |
| ReviewApp.Edited | index.js:701-707 | an edit keeps the state consistent |
| ReviewApp.EditUpdatesTheCell | index.js:447-455 | an edit changes that one cell and no other cell or record; the new table resets every record to not validated; feedback, selection, filter, mapping and template are unchanged |
| ReviewApp.EditWithoutTable | index.js:702 | without a table an edit changes nothing |
| ReviewApp.Selected | index.js:709-715 | selecting a loaded record keeps the state consistent |
| ReviewApp.SelectionSynced | index.js:487-499 | the selection effect keeps the state consistent |
| ReviewApp.FilterChosen | index.js:879 | a filter change keeps the state consistent |
| ReviewApp.FilterKeepsSelection | index.js:487-499 | a set selection survives a filter change; an empty one moves to the first shown record |
| ReviewApp.Begun | index.js:723-725 | starting a request from a consistent state puts exactly that record in flight |
| ReviewApp.Completed | index.js:755-780 | finishing the request in flight leaves a consistent state with nothing validating |
| ReviewApp.Validated | index.js:717-781 | a validation keeps the state consistent and never changes the table, mapping, filter, selection or client |
| ReviewApp.ValidationSettles | index.js:717-781 | without a client the result is an error and nothing changes; with one, only that record is settled, from the reply to its mapped values, with success or error, and nothing is left in flight |
| ReviewApp.ValidationFollowsTheMachine | index.js:723-777 | between handlers any record, whatever its status, can be validated; its status moves to validating, then to success or error, both steps of the machine, and no other status moves |
| ReviewApp.BatchSteps | index.js:796-802 | the batch keeps the table, mapping, filter and client |
| ReviewApp.BatchStepsKeepConsistent | index.js:796-802 | a batch from a consistent state leaves it consistent |
| ReviewApp.BatchView | index.js:793-801 | the batch goes through a prefix of the shown records: all of them with a client; without one exactly the first, when any is shown |
| ReviewApp.BatchStepSettles | index.js:799-800 | one batch turn selects the record and settles it, and no other record changes |
| ReviewApp.BatchSettlesEachShownRecord | index.js:791-806 | with a client, every shown record ends settled by the reply to its own values |
| ReviewApp.BatchLeavesHiddenRecords | index.js:791-806 | with a client, records that are not shown keep their status and feedback |
| ReviewApp.BatchEndsOnLastShown | index.js:796-800 | with a client, the batch ends with the last shown record selected and nothing in flight |
| ReviewApp.App.constructor | index.js:362-392 | the component starts in the initial state, which is consistent |
| ReviewApp.App.HandleCsvUpload | index.js:541-564 | performs the upload transition |
| ReviewApp.App.InstallTable | index.js:522-526 | installs the table, the mapping, and a non-empty new template |
| ReviewApp.App.ResetReview | index.js:527-536 | clears feedback and filter, selects record 0 when there is one, and resets every status |
| ReviewApp.App.FinishCsvLoad | index.js:521-539 | performs the load transition |
| ReviewApp.App.ProcessDataAfterFormatting | index.js:509-519 | performs the format-step transition, with the threshold computed as the source does |
| ReviewApp.App.HandleSkipFormatting | index.js:566-569 | performs the skip transition |
| ReviewApp.App.HandleGenerateTemplate | index.js:628-666 | performs the template-generation transition |
| ReviewApp.App.HandleCloseTemplateGenModal | index.js:668-671 | performs the close transition |
| ReviewApp.App.HandleCellEdit | index.js:701-707 | performs the edit on a copy of the rows, with the status reset the new table triggers |
| ReviewApp.App.HandlePreview | index.js:709-715 | performs the selection |
| ReviewApp.App.SyncSelection | index.js:487-499 | performs the selection effect |
| ReviewApp.App.SetFilter | index.js:879 | performs the filter change and the effect that follows |
| ReviewApp.App.BeginValidation | index.js:723-725 | performs the start of a request |
| ReviewApp.App.CompleteValidation | index.js:755-780 | performs the end of a request |
| ReviewApp.App.RunValidationForIndex | index.js:717-781 | performs the validation transition and returns the record's new status, or an error without a client |
| ReviewApp.App.HandleValidateSingle | index.js:783-789 | from any consistent state, validates the selected record, or does nothing without a selection |
| ReviewApp.App.PreviewAndValidate | index.js:799-800 | selects then validates one record, an error without a client |
| ReviewApp.App.BatchTurn | index.js:797-800 | one turn of the batch loop extends the batch by the next shown record |
| ReviewApp.App.BatchLoop | index.js:796-802 | the loop performs the batch over the records shown at its start, stopping after the first without a client |
| ReviewApp.App.HandleBatchValidate | index.js:791-806 | performs the batch and keeps the component consistent |
| LegacyApp.ReviewItems | index.tsx:569-586 | a finished request always leaves at least one remark |
| LegacyApp.ReviewItemsCases | index.tsx:551-586 | an empty list gives the general success item; a non-empty list is kept verbatim; anything else gives one general error item, the prefix followed by the raised message, and any two parse failures give the same item |
| LegacyApp.ReviewBanner | index.tsx:569-586 | a reply other than a reported list leaves a general banner whose severity is "success" exactly for an empty list |
| LegacyApp.Initial | index.tsx:317-328 | the initial state is consistent |
| LegacyApp.SelectionReset | index.tsx:389-400 | the selection effect keeps the state consistent |
| LegacyApp.SelectionResetPicksFirst | index.tsx:389-400 | the effect changes only the selection: it selects the first shown record when there is one, and otherwise keeps the selection |
| LegacyApp.Uploaded | index.tsx:423-439 | an upload yields a consistent state |
| LegacyApp.UploadResets | index.tsx:423-439 | after an upload the table holds the non-blank rows; feedback and template are gone; the filter is cleared; record 0 is selected exactly when there are rows |
| LegacyApp.Edited | index.tsx:476-483 | an edit keeps the state consistent |
| LegacyApp.EditChangesOnlyTheCell | index.tsx:476-483 | an edit changes exactly that cell and keeps every record's feedback; the effect it triggers moves the selection to the first shown record |
| LegacyApp.EditWithoutTable | index.tsx:477 | without a table an edit changes nothing |
| LegacyApp.Selected | index.tsx:486-492 | selecting a loaded record keeps the state consistent |
| LegacyApp.FilterChosen | index.tsx:669 | a filter change keeps the state consistent |
| LegacyApp.FilterMovesSelection | index.tsx:389-400 | after choosing a code that some record has, the selection is the first record with that code, even if another was selected |
| LegacyApp.Searched | index.tsx:703 | a search-term change keeps the state consistent |
| LegacyApp.Begun | index.tsx:501-503 | starting the request keeps the state consistent |
| LegacyApp.Completed | index.tsx:569-590 | finishing the request keeps the state consistent |
| LegacyApp.Validated | index.tsx:495-591 | a validation keeps the state consistent |
| LegacyApp.ValidationSettles | index.tsx:495-591 | the selected record's feedback becomes the outcome of the reply to its values under the default mapping; nothing is left in flight; table, selection, filter and template are unchanged |
| LegacyApp.ValidationNeedsSelection | index.tsx:496-499 | without a selection nothing changes |
| LegacyApp.App.constructor | index.tsx:317-328 | the component starts in the initial state, which is consistent |
| LegacyApp.App.ResetSelection | index.tsx:389-400 | performs the selection effect |
| LegacyApp.App.InstallTable | index.tsx:429-431 | installs the table and clears feedback and template |
| LegacyApp.App.InstallUpload | index.tsx:429-438 | installs the table, clears feedback, template and filter, and selects the first record exactly when there is one |
| LegacyApp.App.HandleCsvUpload | index.tsx:416-445 | performs the upload and the effect that follows |
| LegacyApp.App.HandleCellEdit | index.tsx:476-483 | performs the edit on a copy of the rows and the effect that follows |
| LegacyApp.App.HandlePreview | index.tsx:486-492 | performs the selection |
| LegacyApp.App.SetFilter | index.tsx:669 | performs the filter change and the effect that follows |
| LegacyApp.App.SetSearchTerm | index.tsx:703 | sets the header search term |
| LegacyApp.App.HandleValidate | index.tsx:495-591 | from any consistent state, performs the validation transition |

## Left out

- CSV parsing and export (Papa.parse, Papa.unparse, the BOM and the download). The model starts from parsed headers and rows.
- The docx-to-HTML conversion and `handleTemplateUpload`. The template is given as HTML text.
- The reviewer call, its prompt, `JSON.parse` and the response schema. They are replaced by the `Reply` datatype. The reviewer is a function of the record sent to it.
- `cleanAiHtmlResponse`. A generated template is given already cleaned.
- The formatting workshop (`handleOpenWorkshop`, `handlePreviewFormatting`, `handleApplyFormatting`). Its only effect on the core is a call of `processDataAfterFormatting`, which is modelled.
- Storing and loading the API key. The presence of a client is a flag set at construction.
- Toasts, modals' visual state, scrolling, the sidebar resize clamp (floating-point pixels) and batch progress counters.
- Asynchrony. Each request runs to completion within its handler, so the race between an edit and a request in flight is not modelled. Between handlers no request is in flight, which the disabled validation buttons (index.js:872-873) guarantee in the source.
- ReviewApp.App.HandleCellEdit: the selection effect that an edit also triggers in the later variant is not applied. It only acts when nothing is selected, which after a load happens only for an empty table.
- Text.ReplaceAll: the `$$`, `$&`, `` $` `` and `$'` patterns in replacement strings are not expanded. Replacement is literal text, so a value or message holding `$$` keeps both characters where the source would show one `$`.
- Tables.Lookup: an unmapped key reads the column named `undefined` in the source. The model reads "".
- Text.ToLowerAscii: only ASCII letters are lower-cased. Unicode case mapping is not modelled.
- Text.LexLess: strings are ordered by code point. JavaScript's `sort` orders by UTF-16 code units. The two differ only outside the Basic Multilingual Plane.
- Template.KeyOfPadded: the property is proved for every padded key rather than for a particular literal such as `{{ preco }}`.
- Template.FragmentAgreesWithTemplate: the header fragment is compared with the template path as a decision and as fields (class, escaped message, value), not as markup. React escapes the `data-feedback` text and the value once more when it renders the fragment, so the tooltip shows the entity text of the escaped quotes and a value holding `<` or `&` shows as text. The template path inserts the same strings as HTML. This difference is not modelled.
- Tables.DefaultHeaders: the 35 column names are written out next to the default mapping, in declaration order, rather than computed from it.
- Object key order of the record sent to the reviewer. The payload is a map.
- An edit keeps the record's feedback, as the code does in both variants. In the later variant the edit marks the record not validated and the new table then resets every record's status.
- The 70% threshold is taken of all 35 listed column names, including the duplicated `NOME_COMERCIAL`. This follows the code.
