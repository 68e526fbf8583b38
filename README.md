# Resume Builder — a Dafny model of `ResumeMaker`

This project models the `ResumeMaker` class of the resume builder (`app.js`)
with the page abstracted away, and proves properties of that model.

- **Record:** the resume record (`resumeData`), its defaults
  (`getDefaultData`), and the `{...defaults, ...parsed}` merge that file
  import and the storage load perform.
- **`updateData`:** the flat assignment and the walk along a
  dot-separated path.
- **Section containers:** each of the six is a sequence of item editors.
  Each item editor maps its controls' names to their current strings.
  - adding a blank item from the section's schema;
  - removing an item without dropping below one;
  - moving an item up or down;
  - collecting the form's data (`getFormData` / `getSectionData`);
  - repopulating the form from the record (`populateForm`).
- **Renderer:** `generateResumeHTML`, with its header, contact, summary,
  section and per-item renderers, reproduced character for character.
  It is a partial function that returns `Err` exactly where the
  JavaScript throws a TypeError.
- **Event handlers:** the ones that change this state, as methods of a
  `ResumeMaker` class:
  - form input and change, template change, colour change;
  - photo upload and removal;
  - file import, save, load;
  - the constructor.

`localStorage` is a map from string to string. The notifications shown so
far are a sequence of `(message, type)` pairs. `JSON.parse` and
`JSON.stringify` are function parameters, and so is whether storage accepts
a write.

Files (one module each):

- `wrappers.dfy` — `Option` and `Result`.
- `js_values.dfy` — JavaScript values, truthiness, template-literal
  stringification, `trim`, `split`.
- `record.dfy` — the record, its defaults, the merge, and the path
  assignment of `updateData`.
- `sections.dfy` — the six sections, their item schemas, and the container
  operations.
- `render.dfy` — the resume markup.
- `app.dfy` — the `ResumeMaker` class.

The model keeps these behaviours of the source as they are:

- **Bare-name binding.** An item's controls are bound by their bare name.
  Editing an experience item's `location` overwrites the top-level
  `location`, and editing any item's `name` sets a top-level `name` key.
- **The skills renderer throws.** `generateSectionHTML` hands each skills
  item to `getSkillsHTML`, which calls `.map` on it. A skills section
  whose items are objects therefore makes rendering throw, and the
  preview keeps its old markup.
- **Extra blank item after a load.** The constructor runs
  `initializeSections` after `loadFromStorage`. Every section therefore
  ends with an extra blank item, even after a load that filled it.
- **`populateForm` can stop part-way.** A section value that is truthy
  but not an array throws once that section's container has been
  cleared; so does an array holding `null`. The sections after it are
  not touched. The import then shows its error notice, the load stops
  before adopting the template and colour, and the form is left partly
  populated. For this reason "every section has an item" is proved where
  it holds, and is not a class invariant.
- **Import notifications.** A successful import shows two notifications:
  the save notice, then "Data imported successfully!".
- **Falsy photo.** `populateForm` leaves the photo preview as it was when
  the record's photo is falsy.
- **Select controls.** A `<select>` given a value that is not one of its
  options reads back `''`.
- **Line breaks.** A single-line item input drops the line breaks of a
  value assigned to it, and the URL input also its surrounding ASCII
  whitespace; a description textarea turns CRLF and a lone CR into LF.

## Model

| member | source | states |
|---|---|---|
| JsValues.TrimEmptyIffBlank | app.js:256 | `value.trim()` is empty exactly when every character of the value is JavaScript white space |
| JsValues.SplitJoin | app.js:217 | joining `key.split('.')` with '.' gives back the key, and no segment contains '.' |
| JsValues.SplitWithoutSeparator | app.js:216 | a key without '.' splits into the key alone |
| JsValues.SplitWithSeparator | app.js:216-217 | a key containing '.' splits into at least two segments |
| Record.DefaultData | app.js:830-848 | the default record has exactly the nine text keys, each '', and the six section keys, each [] |
| Record.Spread | app.js:181 | spreading an object contributes its own properties; spreading an array contributes exactly its indices, as decimal keys, each holding that element; a string contributes one decimal key per character, each holding that one-character string (characters counted as Unicode scalar values, see Left out); null and booleans contribute nothing |
| Record.FromExchange | app.js:181 | after the merge the record has every default key, exactly the default and parsed keys, parsed keys win, absent keys keep '' or [] |
| Record.ImportNonObjectKeepsDefaults | app.js:181 | importing a JSON value that is not an object leaves every default key at its default |
| Record.MergeRestoresCompleteRecord | app.js:762-764 | a record that has every default key comes back unchanged from the merge, so saving it and loading it back gives the same record |
| Record.MergeIdempotent | app.js:181 | merging the result of a merge again changes nothing |
| Record.SetThenGet | app.js:215-227 | after the path assignment, reading the same path gives the assigned value |
| Record.SetLeavesOtherPaths | app.js:215-227 | every path that leaves the assigned path somewhere reads as before |
| Record.SetMakesIntermediateObjects | app.js:219-222 | every proper prefix of the path is an object afterwards; one that was not an object becomes a fresh `{}` holding only the next segment |
| Record.SetPath | app.js:216-223 | no contract of its own: the path assignment, total where the source would throw; SetThenGet, SetLeavesOtherPaths, SetMakesIntermediateObjects and SetPathKeys state its properties |
| Record.SetPathKeys | app.js:216-223 | the path assignment adds the path's first segment to the top level and removes no key |
| Record.AssignPath | app.js:216-223 | on a path whose intermediates are objects or falsy (where the source does not throw), the loop that walks the path, creating `{}` for falsy intermediates, computes the path assignment |
| Record.UpdateData | app.js:215-227 | an undotted key is a flat assignment of that key; in every case reading the key's path gives the value |
| Record.UpdateKeepsKeys | app.js:215-227 | updateData never removes a top-level key |
| Record.UpdateLeavesOtherTopKeys | app.js:215-227 | every top-level key other than the path's first segment keeps its presence and its value |
| Sections.BlankItem | app.js:474-592 | a fresh item has exactly its section's controls, all empty (the select shows its '' option) |
| Sections.CollectItemKeepsNonBlank | app.js:253-260 | a collected item keeps exactly the controls whose trimmed value is non-empty, each with its untrimmed value |
| Sections.SectionDataKeepsOrder | app.js:252-261 | the collected items are the kept items, collected, in their order in the container |
| Sections.KeptIndicesExact | app.js:252-261 | an item is kept exactly when its collected form is non-empty, and kept items stay in increasing order |
| Sections.SectionDataItemsNonEmpty | app.js:261 | no collected item is empty, and none of its values is blank |
| Sections.CollectItem | app.js:252-258 | no contract of its own: one item's collection; CollectItemKeepsNonBlank states which controls it keeps and with what |
| Sections.SectionData | app.js:248-261 | no contract of its own: getSectionData; SectionDataKeepsOrder, KeptIndicesExact and SectionDataItemsNonEmpty state it |
| Sections.EntriesDataLastWins | app.js:234-238 | a form entry's key is in the data exactly when some entry for it has a non-blank value, and its value is the last such entry's |
| Sections.EntriesData | app.js:233-238 | no contract of its own: the entries loop of getFormData; EntriesDataLastWins states it |
| Sections.FormData | app.js:230-246 | every section key holds the section's collected items; every other key is as the form entries give it |
| Sections.AssignedText | app.js:817 | `input.value = itemData[key]`: null reads back ''; the proficiency select reads back one of its options; a string the control keeps as it is (Sections.Clean) reads back unchanged |
| Sections.ControlText | app.js:481-592 | what each item control reads back: the select one of its options (or '' for any other text), the URL input no line break and no ASCII whitespace at either end, a description textarea no carriage return, every other text input no line break; text already in that form reads back unchanged |
| Sections.StripNewlines | app.js:481-592 | a single-line input's value sanitization leaves no line feed or carriage return, and keeps text that has none |
| Sections.StripNewlinesPieces | app.js:481-592 | stripping line breaks distributes over concatenation, and a lone line break vanishes |
| Sections.NormalizeNewlines | app.js:499 | a description textarea's (also app.js:517 and 548) value normalization leaves no carriage return (CRLF and lone CR become LF), and keeps text that has none |
| Sections.NormalizeKeepsText | app.js:499 | normalization changes only line breaks: with line breaks stripped, the text before and after is the same |
| Sections.StripAsciiWhitespace | app.js:546 | the url control's value sanitization leaves no ASCII whitespace at either end, and keeps text that has none there |
| Sections.StripAsciiWhitespaceExact | app.js:546 | the sanitized URL is the middle slice of the text: everything before it and everything after it is ASCII whitespace |
| Sections.ControlTextKeepsBlank | app.js:253-257 | what a control reads back is blank exactly when the assigned text is, so a field is collected exactly when its text is non-blank |
| Sections.FillItem | app.js:809-819 | a populated item is well formed; each schema field named in the data holds its text; every other field is empty |
| Sections.FillListFacts | app.js:808-820 | populating an array finishes exactly when no element is null, and then yields one filled item per element, in order |
| Sections.FillList | app.js:808-820 | no contract of its own: the items built for an array; FillListFacts states it |
| Sections.FillSection | app.js:804-825 | no contract of its own: one section of populateForm; PopulateSectionShape and PopulateFloor state it |
| Sections.PopulateSectionShape | app.js:803-826 | a section populates exactly when its value is falsy or an array without null; then it holds one item per element, or a single blank item when the array is empty or the value is missing |
| Sections.PopulateFloor | app.js:822-825 | a section that populates holds at least one item; a truthy string leaves the cleared container empty |
| Sections.FillThenCollect | app.js:814-819 | populating an item from string fields and collecting it back gives exactly the schema fields with non-blank values, each with what its control reads back (Sections.ControlText); a string already in the control's form comes back unchanged |
| Sections.FillSectionsFrame | app.js:803-826 | the populate loop touches only the sections it reaches and keeps every item well formed |
| Sections.FillSectionsOkIff | app.js:803-826 | the populate loop finishes exactly when every section's value populates |
| Sections.FillSectionsContent | app.js:803-826 | when the loop finishes, every section holds what populating its own value gives |
| Sections.FillSectionsFloor | app.js:822-825 | when the loop finishes, every section holds at least one item |
| Sections.FillSections | app.js:803-826 | no contract of its own: the sections loop of populateForm; FillSectionsFrame, FillSectionsOkIff, FillSectionsContent and FillSectionsFloor state it |
| Sections.RemoveKeepsFloor | app.js:595-602 | a section never drops below one item; a single item is kept; otherwise exactly that one item is taken out (as a multiset) |
| Sections.RemoveKeepsOrder | app.js:595-602 | after a removal the items before the removed one keep their positions and the ones after it move up by one, in order |
| Sections.ReinsertDown | app.js:612-613 | `insertBefore(item, items[i+1].nextSibling)` swaps the item with its lower neighbour |
| Sections.ReinsertUp | app.js:614-615 | `insertBefore(item, items[i-1])` swaps the item with its upper neighbour |
| Sections.MoveSwapsNeighbours | app.js:605-619 | a move by ±1 swaps with the neighbour when that index is inside the section and changes nothing otherwise; length and multiset are kept |
| Sections.MoveThenBack | app.js:605-619 | moving an item and then moving it back restores the list |
| Sections.Moved | app.js:605-619 | no contract of its own: moveSectionItem on the list; MoveSwapsNeighbours and MoveThenBack state it |
| Render.HeaderPlaceholders | app.js:292-303 | the header shows the name and the job title, with 'Your Name' and 'Your Job Title' when these are falsy |
| Render.ContactLinesMatch | app.js:306-316 | the j-th contact line is the line of the j-th truthy field |
| Render.ContactPositionsOrderedComplete | app.js:309-313 | the contact lines follow the order email, phone, location, website, linkedin, and no truthy field is missing |
| Render.ContactLinesEmptyIff | app.js:309-313 | there is no contact line exactly when every contact field is falsy |
| Render.ContactEmptyIff | app.js:315 | the contact block is '' exactly when all five contact fields are falsy |
| Render.SummaryOmittedIff | app.js:280 | the summary block is '' exactly when the summary is falsy; otherwise it shows the summary |
| Render.ExperiencePlaceholders | app.js:353-364 | an experience item renders with 'Position' and 'Company' when these are falsy, and with 'Present' when endDate is falsy |
| Render.EducationPlaceholders | app.js:367-378 | an education item renders with 'Degree' and 'Institution' when these are falsy |
| Render.ProjectPlaceholders | app.js:395-406 | a project renders with its name, or 'Project Name' when it is falsy, and its technologies |
| Render.CertificationPlaceholders | app.js:409-420 | a certification renders with 'Certification Name' and 'Issuer' when these are falsy |
| Render.LanguagePlaceholders | app.js:423-432 | a language renders with 'Language' and 'Proficiency Level' when these are falsy |
| Render.SkillTagsOkIff | app.js:381-382 | the tag list of an array renders exactly when no element is null |
| Render.ItemRendersIff | app.js:352-432 | an item renders exactly when it is not null, and a skills item exactly when it is an array without null |
| Render.ItemsOkIff | app.js:332 | a section's items render exactly when each of them does |
| Render.SectionRendersIff | app.js:329-350 | a section renders exactly when its value is falsy, lengthless, or an array whose items all render |
| Render.EmptySectionOmitted | app.js:330 | a missing, falsy or empty section renders as '' |
| Render.NonEmptySectionTitled | app.js:333-349 | a non-empty section whose items render shows its title |
| Render.SkillsObjectItemThrows | app.js:381-382 | a skills section holding an item that is not an array throws |
| Render.SectionBlocksOkIff | app.js:281-286 | the six section blocks render exactly when each section does |
| Render.ResumeRendersIff | app.js:272-289 | the resume renders exactly when every section renders |
| Render.DefaultDataRenders | app.js:15 | the default record (app.js:830-848) renders under any template, so the first preview of a page with nothing stored is the rendered default record |
| Render.TemplateOnlyInClass | app.js:277 | two template ids give markup that differs only in the root div's class |
| Render.ResumeHTML | app.js:272-289 | no contract of its own: generateResumeHTML, character for character; ResumeRendersIff and TemplateOnlyInClass state it |
| Render.HeaderHTML | app.js:292-303 | no contract of its own: generateHeaderHTML; HeaderPlaceholders states it |
| Render.ContactHTML | app.js:306-316 | no contract of its own: generateContactHTML; ContactLinesMatch, ContactPositionsOrderedComplete and ContactEmptyIff state it |
| Render.SummaryBlock | app.js:280 | no contract of its own: the summary slot of generateResumeHTML; SummaryOmittedIff states it |
| Render.SectionHTML | app.js:329-350 | no contract of its own: generateSectionHTML; SectionRendersIff, EmptySectionOmitted, NonEmptySectionTitled and SkillsObjectItemThrows state it |
| Render.ExperienceHTML | app.js:353-364 | no contract of its own: getExperienceHTML; ExperiencePlaceholders and ItemRendersIff state it |
| Render.EducationHTML | app.js:367-378 | no contract of its own: getEducationHTML; EducationPlaceholders and ItemRendersIff state it |
| Render.SkillsHTML | app.js:381-392 | no contract of its own: getSkillsHTML; SkillTagsOkIff, ItemRendersIff and SkillsObjectItemThrows state it |
| Render.ProjectHTML | app.js:395-406 | no contract of its own: getProjectsHTML; ProjectPlaceholders and ItemRendersIff state it |
| Render.CertificationHTML | app.js:409-420 | no contract of its own: getCertificationsHTML; CertificationPlaceholders and ItemRendersIff state it |
| Render.LanguageHTML | app.js:423-432 | no contract of its own: getLanguagesHTML; LanguagePlaceholders and ItemRendersIff state it |
| App.TextControlsUndotted | app.js:832-839 | no static text control's name contains '.', so editing one is a flat update |
| App.SchemaUndotted | app.js:481-592 | no item control's name contains '.', so editing one is a flat update |
| App.ResumeMaker.constructor | app.js:3-8 | the field assignments: the default record, template 'classic', colour '#2563eb', empty text controls, no photo shown, empty containers and an empty preview |
| App.ResumeMaker.Initialize | app.js:12-16 | afterwards every section ends with a blank item and the preview shows the rendered record (kept when rendering throws); with nothing stored the record, text controls and photo preview are kept, each section gains exactly one blank item, and a stored template or colour is adopted |
| App.ResumeMaker.InitializeView | app.js:13-15 | initializeSections then updatePreview: each section gains exactly one blank item, which is then its last, the preview shows the rendered record, and the record, controls, template, colour and storage are untouched |
| App.ResumeMaker.UpdateData | app.js:215-227 | a key without '.' is set directly; a dotted key is the path assignment of the old record; the record keeps every default key |
| App.ResumeMaker.UpdatePreview | app.js:265-269 | the preview shows the rendered record; when rendering throws it keeps its old markup |
| App.ResumeMaker.EditControl | app.js:115-127 | the edited control, and only it, holds the new value: a static control in the inputs, an item control in its item |
| App.ResumeMaker.HandleFormInput | app.js:115-127 | the control holds the value, the record key named by the control's bare name is set to it, and the preview is re-rendered |
| App.ResumeMaker.RenderAndSave | app.js:132-133 | updatePreview then saveToStorage, the tail of handleTemplateChange and of handleColorChange (app.js:140-141): the preview shows the rendered record, the save happens only when rendering did not throw, and the record, template and colour are untouched |
| App.ResumeMaker.SaveToStorage | app.js:745-754 | the three keys are written with a success notice, or nothing is written and an error notice is shown |
| App.ResumeMaker.HandleTemplateChange | app.js:130-135 | the template is adopted and the preview re-rendered; the save happens only when rendering did not throw |
| App.ResumeMaker.HandleColorChange | app.js:138-143 | the colour is adopted and the preview re-rendered; the save happens only when rendering did not throw |
| App.ResumeMaker.HandlePhotoUpload | app.js:146-160 | an image's data URL becomes the photo and is shown; any other file changes nothing |
| App.ResumeMaker.HandlePhotoRemove | app.js:163-171 | the photo becomes '' and the preview image is hidden |
| App.ResumeMaker.AddSectionItem | app.js:474-478 | a blank item is appended to the section and nothing else changes |
| App.ResumeMaker.InitializeSections | app.js:467-471 | every section gets exactly one blank item appended, which is then its last item, and nothing else changes |
| App.ResumeMaker.RemoveSectionItem | app.js:595-602 | the container becomes the removal; the last item stays and a warning is shown instead |
| App.ResumeMaker.MoveSectionItem | app.js:605-619 | the container becomes the move; the preview is re-rendered only when the move happened |
| App.ResumeMaker.PopulateForm | app.js:784-827 | the text controls, the photo preview and the containers become what the populate functions give, and the result says whether the loop finished |
| App.ResumeMaker.PopulateControls | app.js:785-800 | each static control whose key is truthy shows it; a truthy photo is shown; nothing else changes |
| App.ResumeMaker.PopulateSections | app.js:803-826 | the loop over the sections computes the populate function and stops where it throws |
| App.ResumeMaker.PopulateSection | app.js:804-825 | one iteration of the sections loop: only that section's container changes, to what populating the section's value gives, and the result says whether the iteration finished |
| App.ResumeMaker.AdoptRecord | app.js:181-182 | the record becomes the merge of the parsed value, which is then populated |
| App.ResumeMaker.LoadFromStorage | app.js:756-781 | stored data is merged and populated; the stored template and colour are adopted only when that finished; unparseable data changes nothing |
| App.ResumeMaker.HandleFileImport | app.js:174-192 | unparseable text changes nothing and shows one error notice; parsed text goes through ImportRecord |
| App.ResumeMaker.ImportRecord | app.js:181-191 | the record becomes the merge of the parsed value and is populated; preview, storage and notifications then end as the import's outcome for whether populating finished |
| App.ResumeMaker.FinishImport | app.js:184-191 | render, save, success notice; a populate or render that threw shows only the error notice and saves nothing; the record, template and colour are untouched |
| App.ResumeMaker.ReportImport | app.js:185-191 | after a render: the save and the success notice; after a throw: only the error notice, nothing written |

## Left out

- Numbers in the JSON data are not modelled. Values are strings, booleans, null, arrays and objects.
- `JSON.parse` and `JSON.stringify` are parameters. Whether `localStorage.setItem` throws is one all-or-nothing flag, `fits`. A quota error after the first or second write, which would leave some keys written, is not modelled.
- `FileReader` is not modelled. Photo upload and file import are modelled at the moment their read completes, with the file's MIME type, data URL or text as parameters. The missing-file branches do nothing and are not modelled.
- The DOM is not modelled: element lookup, event wiring, `bindEvents`, stylesheets (`switchTemplate`, `applyTemplateStyling`), the CSS variable for the accent colour, and the image's display styles.
- Notification styling, icons, colours and timers (`showNotification`, `getNotificationIcon`, `getNotificationColor`) are not modelled. A notification is its message and type.
- Zoom (`zoomIn`, `zoomOut`, `resetZoom`, `applyZoom`) is left out: it is floating-point presentation only.
- `downloadPDF`, `downloadHTML`, `getTemplateCSS` and `exportJSON` are left out: they are foreign libraries and browser downloads.
- The autosave interval (`startAutosave`) is not modelled: it only calls `saveToStorage` on a timer. Keyboard shortcuts are not modelled either, because they only call save, PDF download or export.
- `toggleSection` is not modelled: it only changes display styles.
- `simple_app.js` is not part of this model.
- Checkbox controls in `handleFormChange` are not modelled. The page's HTML is not part of this model, and the model assumes the form has no checkbox (`app.js` itself creates none), so the handler is the same as `handleFormInput`.
- The static text controls (name, title, contact fields, summary) are declared in the page's HTML, which is not part of this model, so their types are unknown and their values are taken verbatim. The item controls, whose types `app.js` declares, apply the browser's value sanitization (Sections.ControlText).
- Record keys that name other elements of the page are not modelled. `populateForm` looks each key up by id and then by name. The model covers the eight static text controls and the photo; other keys find no control.
- The name-selector fallback in `populateForm` is not modelled: it can also hit the first dynamic item's control of the same name.
- Keys that make `querySelector` throw are not modelled.
- Stringification that throws is not modelled. Parsed JSON can hold an object whose own `toString` property is not a function, for example `{"toString": 1}`; `${…}` then falls back to `valueOf`, which gives back the object itself, and throws. (An object with only a non-callable `valueOf` does not throw, since `toString` is tried first.) The model stringifies such an object as `[object Object]`.
- Record.Spread: a string is spread per Unicode scalar value; JavaScript spreads it per UTF-16 code unit, so a character outside the Basic Multilingual Plane gives one key here and two keys, each holding a lone surrogate, there. Lone surrogates are not representable as Dafny `char`s.
- The file control's entry in `getFormData` is not modelled. The entry is a `File`, `value.trim()` throws on it, and so `getFormData` throws whenever the form contains that control. The model skips the entry. The application never calls `getFormData`.
- Record.SetPath is total: where the source would throw, it replaces the truthy primitive intermediate with a fresh object. Record.AssignPath, Record.UpdateData and App.ResumeMaker.UpdateData require a walkable path, so only the source's behaviour is claimed for them.
- Record.UpdateData: the contract requires every intermediate on the path to be an object or falsy. A truthy primitive makes the assignment throw in strict mode. Arrays as intermediates are not modelled.
- App.ResumeMaker.UpdateData: same restriction as Record.UpdateData, for dotted keys only.
- App.ResumeMaker.HandleFormInput: a value given to the proficiency select must be one of its options, as the browser guarantees for a user's choice.
- App.ResumeMaker.constructor: the source's constructor is the model's constructor followed by Initialize (`new ResumeMaker()` runs both in one step). They are two members because one proof of both, with the concrete default record in view, goes past the solver's resource limit.
- App.ResumeMaker.Initialize: with stored data present, it states the invariant, the blank last item of every section and the preview. The exact record, controls and containers after a load are stated by LoadFromStorage.
- App.ResumeMaker.Initialize: if the first render throws, the source stops before `startAutosave`. This is not modelled, since the autosave timer is not modelled.
