# Admin dashboard core, modelled in Dafny

This project models the data logic of a college-portal admin dashboard.
The dashboard is a React/TypeScript application. The model covers:

- the schema-less JSON tree editor (`SmartRenderer`), with its matrix, list, gallery and auto-table sub-editors;
- the simpler editor for scraped college records (`ScrapedSmartRenderer`) and its display rules;
- the generic data-management page: form submission, CSV export, search, pagination, enquiry status, and nested form values;
- the serialiser from editor blocks to HTML;
- the save payload of the college edit page;
- the computed table columns;
- the bulk-upload and import-from-URL dialogs;
- the dashboard's monthly bucketing helper `generateMonthlyEnquiries`. The dashboard's chart does not use it: the chart reads the `monthlyEnquiries` the statistics request returns, and the helper is never called.

JSON values are a datatype (`Js.Json`), and objects are ordered lists of members. An absent member (JavaScript `undefined`) is `None`. A JavaScript `TypeError` thrown by a handler is an `Err` result. When a control is not rendered, or its handler throws, an editor operation returns `None`.

Where the source mutates objects or arrays in place, the model computes the resulting value instead. Where the source changes component state step by step, the model uses classes (`BulkUploadModal.UploadDialog`, `ImportFromUrlModal.ImportDialog`) or loop methods (`DataManagement.ProcessFormData`, `Form.SetNestedValue`, `Form.EmptyItem`, `Dashboard.GenerateMonthlyEnquiries`, `CollegeEditPage.BuildSavePayload`). Each of these is proved against a specification function.

Modules:

| file | module | models |
|---|---|---|
| js.dfy | Js | JavaScript values, truthiness, `\|\|` and `??`, property read/write, object spread, index keys |
| text.dfy | Text | ASCII case mapping, `split`, `join`, `trim`, `startsWith`, `replace` |
| types.dfy | Types | `FormField` and `Column` from `types.ts` |
| fields.dfy | Fields | `NO_BLOCK_FIELDS`, `EXCLUDED_FIELDS`, `formatKey`, image-field and control tests |
| editors.dfy | Editors | `InnerTableEditor`, `NestedListEditor`, `HeroImageEditor`, new-block defaults |
| auto_table.dfy | AutoTable | `AutoDataTable`: headers, add/delete row, add block, block edits |
| smart_renderer.dfy | SmartRenderer | `SmartRenderer` dispatch, `handleAddBlock`, `isFlatObjectArray` |
| scraped_colleges.dfy | ScrapedColleges | `ScrapedSmartRenderer`, `isImage`, section filter, course cards |
| data_management.dfy | DataManagement | submit, export, search, pagination, enquiry status |
| form.dfy | Form | `getNestedValue`, `setNestedValue`, `addArrayItem`, `removeArrayItem` |
| editor_to_html.dfy | EditorToHtml | `editorToHtml` |
| college_edit_page.dfy | CollegeEditPage | `buildSavePayload`, `handleSave` guard |
| columns.dfy | Columns | the accessor columns of `constants.tsx` |
| bulk_upload_modal.dfy | BulkUploadModal | sample CSV and the upload dialog |
| import_from_url_modal.dfy | ImportFromUrlModal | progress-message cycle and the import dialog |
| dashboard.dfy | Dashboard | `generateMonthlyEnquiries` |

## Model

| member | source | states |
|---|---|---|
| Editors.SafeData | components/SmartRenderer.tsx:31 | a missing, non-array or empty table is `[["",""]]`; a non-empty array renders only when every row is an array, and is then the table itself |
| Editors.AddRow | components/SmartRenderer.tsx:33 | one row of empty cells is appended, as long as the first row; the old rows are unchanged |
| Editors.AddColumn | components/SmartRenderer.tsx:34 | every row gains exactly one empty cell at its end and keeps its old cells |
| Editors.RemoveColumn | components/SmartRenderer.tsx:35-38 | no change when the first row has at most one cell; otherwise column `col` leaves every row and the row count stays |
| Editors.EditCell | components/SmartRenderer.tsx:53-58 | exactly the one cell holds the typed text; the shape and every other cell are unchanged |
| Editors.RemoveRow | components/SmartRenderer.tsx:68 | one row fewer; the others keep their order |
| Editors.MatrixStepKeepsRectangular | components/SmartRenderer.tsx:33-68 | every matrix operation keeps a rectangular table rectangular, with the width it implies |
| Editors.MatrixEdit | components/SmartRenderer.tsx:31-68 | the editor hands on a table exactly when its rows all render and the control is drawn, and the table is the one that control makes of the shown table (`MatrixStep` of `SafeData`); it is always an array of arrays |
| Editors.AddColumnToMissingTable | components/SmartRenderer.tsx:31-34 | adding a column to a missing or empty table gives one row of three empty cells |
| Editors.RemoveLastRow | components/SmartRenderer.tsx:68 | deleting the only row gives `[]`, because there is no floor |
| Editors.ListEdit | components/SmartRenderer.tsx:131-155 | a line edit replaces exactly that line; delete drops exactly that line and keeps the order; add appends `""`; each is offered only for an existing line of an array |
| Editors.GalleryEdit | components/SmartRenderer.tsx:377-397 | delete drops exactly one image and keeps the order; upload appends the URL and ignores an empty one |
| Editors.DefaultData | components/SmartRenderer.tsx:201-223 | a new block's data is what its own editor reads without throwing: an empty text, a list whose add gives two empty lines, or the default table |
| Editors.NewBlock | components/SmartRenderer.tsx:201-223 | a new block has exactly the members `type` and `data`: its kind's type name and that kind's default data |
| Editors.MatrixJsonInjective | components/SmartRenderer.tsx:31 | different tables give different JSON |
| Editors.AppendBlock | components/SmartRenderer.tsx:228-238 | the new cell has `blocks` equal to the existing blocks plus the new block; every other member is copied; an object keeps its key order |
| Fields.IsImageField | components/SmartRenderer.tsx:471 | a field is an image field exactly when its value is an array and its lower-cased key contains "image"; the extra test for `heroImages` adds nothing |
| Fields.FormatKey | components/SmartRenderer.tsx:375 | the label is at least as long as the key and holds no underscore |
| Fields.FormatKeyIsByChars | components/SmartRenderer.tsx:375 | the three regex passes of `formatKey` equal a single pass over the characters |
| Fields.FormatKeyShape | components/SmartRenderer.tsx:375 | the label has no underscore; it is one character longer per capital; a lower-case first letter is upper-cased |
| Fields.FormatRestConcat | components/SmartRenderer.tsx:375 | formatting after the first character distributes over concatenation |
| Fields.FormatKeyCamelCase | components/SmartRenderer.tsx:375 | `courseCount` style keys become "Course Count" |
| Fields.FormatKeySnakeCase | components/SmartRenderer.tsx:375 | `application_date` style keys become "Application date" |
| AutoTable.FlatMapMembership | components/SmartRenderer.tsx:186-192 | a text is in a `flatMap` exactly when the mapped function gives it for some element |
| AutoTable.AllKeysMembership | components/SmartRenderer.tsx:186-192 | a key is collected exactly when some object row has it |
| AutoTable.Distinct | components/SmartRenderer.tsx:186-192 | the `Set` keeps the same keys, each once |
| AutoTable.Headers | components/SmartRenderer.tsx:186-192 | headers have no duplicates and are exactly the row keys outside `NO_BLOCK_FIELDS` |
| AutoTable.HeadersInFirstSeenOrder | components/SmartRenderer.tsx:186-192 | headers appear in the order in which they are first met in the rows |
| AutoTable.AddTableRow | components/SmartRenderer.tsx:352-362 | one row is appended; it maps every header, in order, to `{blocks: []}`; the old rows are unchanged |
| AutoTable.AddTableRowKeepsHeaders | components/SmartRenderer.tsx:352-362 | adding a row never changes the headers |
| AutoTable.AddBlockToField | components/SmartRenderer.tsx:194-241 | offered exactly for a cell of an existing row of a table that renders, outside `EXCLUDED_FIELDS`; only that row changes; the cell gets the block appended and the row's other members stay |
| AutoTable.AddBlockToFieldAppendsOne | components/SmartRenderer.tsx:228-238 | an object cell gains exactly one block after its old ones and keeps its other members |
| AutoTable.EditBlock | components/SmartRenderer.tsx:280-330 | a text, list or table edit takes place exactly when block `i` of the cell has the control's kind, its `data` is an object, and the control writes a value; it changes the table only along the path to that block's `data`: the other rows, the row's other members, the cell's other members, the other blocks and the block's `type` stay; in `data` only the written member changes; reading it back gives the new value |
| AutoTable.BlockDataAt | components/SmartRenderer.tsx:283-287 | the `data` a block control edits is the value the path `[row][h].blocks[i].data` leads to |
| AutoTable.EditBlockStepsOfObjectRow | components/SmartRenderer.tsx:280-330 | for an object row, the path of a block edit is row, field, `blocks`, block index, `data`, in that order |
| AutoTable.EditBlockWhen | components/SmartRenderer.tsx:287-322 | once the block is found and its control writes, the chained assignment succeeds exactly when the block's `data` is an object |
| AutoTable.EditBlockStaysInRow | components/SmartRenderer.tsx:287-322 | a write through the block path leaves the other rows and the row count unchanged |
| AutoTable.TableEdit | components/SmartRenderer.tsx:336-362 | nothing when the table does not render (an empty array; a `null` row under a header; a `null` block; a text, list or table block without `data`; a table block whose rows are not all arrays); delete drops exactly that row and keeps the order; add row appends exactly `AddTableRow` and keeps the headers; add block and block edits give exactly what `AddBlockToField` and `EditBlock` give |
| AutoTable.NullBlockStopsTable | components/SmartRenderer.tsx:279-281 | a `null` block in a cell makes the table throw while rendering, so not even "add row" is offered |
| SmartRenderer.FlatObjectArrayLooksAtFirstOnly | components/SmartRenderer.tsx:506-510 | elements after the first do not change whether an array is a flat table |
| SmartRenderer.IsFlatObjectArray | components/SmartRenderer.tsx:506-510 | an array whose first element is an object with an empty `type` is a flat table; one whose first element has a truthy `type`, is `null` or is an array is not |
| SmartRenderer.StrategyOf | components/SmartRenderer.tsx:443-500 | scalars get a text field, flat object arrays the auto table, other arrays an element stack, objects sections, and nothing else |
| SmartRenderer.StringMatrixIsListStack | components/SmartRenderer.tsx:454-459 | an array of string arrays renders as a stack of list editors, not the matrix editor |
| SmartRenderer.SectionKeysAreSections | components/SmartRenderer.tsx:470 | a key is rendered as a section exactly when it is a key of the object and not in `NO_BLOCK_FIELDS` |
| SmartRenderer.SectionKeys | components/SmartRenderer.tsx:470 | the section keys are exactly the object's keys outside `NO_BLOCK_FIELDS` |
| SmartRenderer.HandleAddBlock | components/SmartRenderer.tsx:405-440 | fails exactly when a truthy `blocks` cannot be spread; otherwise only the field changes, it gets the block appended, and the key order stays |
| SmartRenderer.Apply | components/SmartRenderer.tsx:443-500 | each control acts only on the kind of value that renders it: a text edit replaces a scalar; a table edit is exactly `TableEdit` of an auto-table array; add item appends `""`; delete removes one index or key; element edits are exactly `ApplyToElement` of an element stack and section edits exactly `ApplyToSection` of an object, and nothing happens elsewhere |
| SmartRenderer.ApplyToElement | components/SmartRenderer.tsx:447-466 | add appends `""`; delete removes exactly that index; a matrix, list or nested edit of element `i` happens exactly when that element has that editor and the editor writes, and then element `i` becomes the `MatrixEdit`, `ListEdit` or `Apply` result while the rest stay |
| SmartRenderer.ApplyToSection | components/SmartRenderer.tsx:468-500 | delete removes exactly that key; add block gives exactly the members `HandleAddBlock` returns; a gallery edit puts the `GalleryEdit` images under the key; a nested edit puts the `Apply` result under the key; each happens exactly when its control is shown and its handler does not throw |
| SmartRenderer.ApplyIsLocal | components/SmartRenderer.tsx:443-500 | every edit changes the document only along the path to its control; all other elements and members, lengths and key orders stay |
| SmartRenderer.AddBlockToTextField | components/SmartRenderer.tsx:432-439 | adding a block to a string field turns the field into a spread of the string plus `blocks` |
| SmartRenderer.TextFieldSpreadsIntoCharacters | components/SmartRenderer.tsx:432 | such a field holds one member per character next to the new block |
| ScrapedColleges.ImageUnderLowerCase | components/ScrapedColleges.tsx:169 | an image value stays an image when lower-cased |
| ScrapedColleges.UpperCaseSchemeIsNotImage | components/ScrapedColleges.tsx:169 | "HTTP://x" is not an image, while its lower-case form is, because the scheme test keeps case |
| ScrapedColleges.UpperCaseExtensionIsImage | components/ScrapedColleges.tsx:169 | the extension test ignores case |
| ScrapedColleges.IsImage | components/ScrapedColleges.tsx:169 | only a string of at least four characters can be an image, so short values such as "N/A" are shown as text |
| ScrapedColleges.ApplyScraped | components/ScrapedColleges.tsx:182-222 | a scalar takes the typed text; delete drops exactly one element and keeps the order; "Add Entry" appends `""`; a field edit needs a shown key and never touches `EXCLUDED_KEYS`; an element or field edit replaces exactly that element or member by the nested edit's result, and fails when the nested edit fails |
| ScrapedColleges.ApplyScrapedIsLocal | components/ScrapedColleges.tsx:193-222 | every edit changes the value only along its path |
| ScrapedColleges.SectionKeys | components/ScrapedColleges.tsx:309-311 | sections are exactly the record's keys except "courses", "info_course_fee" and `EXCLUDED_KEYS` |
| ScrapedColleges.EditSection | components/ScrapedColleges.tsx:313 | a section edit rewrites only that key of the record and keeps the key order |
| ScrapedColleges.EditSectionOfObject | components/ScrapedColleges.tsx:313 | a section edit changes the record only at that key |
| ScrapedColleges.DetailLabel | components/ScrapedColleges.tsx:27 | the label has the name's length and no underscore; every underscore becomes a space |
| ScrapedColleges.DetailRowHidden | components/ScrapedColleges.tsx:21-22 | an array row is hidden exactly when it is empty, although an empty array is truthy; a string row exactly when it is empty; an object row never |
| ScrapedColleges.DetailRows | components/ScrapedColleges.tsx:21-27 | a course card's detail rows are the labelled details that are not hidden, each detail that is not hidden appears, and there are never more rows than details |
| ScrapedColleges.DetailRowsConcat | components/ScrapedColleges.tsx:121-123 | the rows follow the order of `Object.entries`: the rows of two runs of entries are those of the first run followed by those of the second |
| ScrapedColleges.DetailRowsOne | components/ScrapedColleges.tsx:21-27 | one entry gives its labelled row, or none when `CourseDetailRow` hides it |
| ScrapedColleges.CourseCardOf | components/ScrapedColleges.tsx:21-145 | the card throws exactly when a child it renders in its state is a plain object (name, truthy fees, duration; the stats of an open top-level card; an array item of a shown detail row; an open card's sub-course header) or a read hits `null`; a `null` course is a TypeError; sub-courses and details show only when non-empty; fees fall back to 'Fees N/A'; the four stats are always truthy, because a falsy one is replaced |
| ScrapedColleges.ObjectNameThrows | components/ScrapedColleges.tsx:71-73 | a course whose `name` is an object never renders |
| ScrapedColleges.ScalarCourseRenders | components/ScrapedColleges.tsx:51-145 | a course whose members are all scalars renders in every state |
| DataManagement.CleanItems | components/DataManagement.tsx:103-119 | after split, trim and filter, no item is empty, has surrounding spaces, or holds a comma |
| DataManagement.CommaList | components/DataManagement.tsx:103-119 | every item of a comma list is clean |
| DataManagement.CommaListOfJoin | components/DataManagement.tsx:103-119 | joining clean items with commas and parsing gives them back |
| DataManagement.CommaListOfNothing | components/DataManagement.tsx:103-119 | an empty text gives an empty list |
| DataManagement.ProcessFormData | components/DataManagement.tsx:100-119 | the submit loop computes the processed record that the field-by-field definition gives |
| DataManagement.Submitted | components/DataManagement.tsx:100-119 | the submitted record keeps every member name of the form data, and distinct names stay distinct |
| DataManagement.SubmittedOwn | components/DataManagement.tsx:100-119 | with distinct field names, each configured field's member holds the coercion of its original value |
| DataManagement.SubmittedOther | components/DataManagement.tsx:100-119 | a member that no configured field names keeps the form data's value |
| DataManagement.QuoteCell | components/DataManagement.tsx:240-244 | a cell without comma, quote or newline is verbatim; otherwise it is wrapped in quotes |
| DataManagement.ExportContent | components/DataManagement.tsx:228-248 | there is no file exactly when there are no items |
| DataManagement.ExportFileName | components/DataManagement.tsx:253 | the name is the lower-cased title, with only its first space turned into an underscore, then `_export.csv` |
| DataManagement.ReadFieldOfCell | components/DataManagement.tsx:240-244 | a quoted cell reads back as the original text |
| DataManagement.ParseLines | components/DataManagement.tsx:245-246 | joining the lines of any table with newlines parses back into that table |
| DataManagement.ExportRoundTrip | components/DataManagement.tsx:228-248 | the exported CSV parses back into the header line followed by one row of cell texts per item |
| DataManagement.SearchText | components/DataManagement.tsx:259-262 | a truthy `name` is used, else a truthy `title`, else ""; the chosen value must be a string and is lower-cased; a `null` item or a non-string choice throws a TypeError |
| DataManagement.Search | components/DataManagement.tsx:259-262 | the search fails exactly when some item has an unreadable name or title |
| DataManagement.SearchKeepsMatches | components/DataManagement.tsx:259-262 | exactly the matching items are kept, and never more than there were |
| DataManagement.SearchEmptyTerm | components/DataManagement.tsx:259-262 | an empty term keeps everything |
| DataManagement.SearchConcat | components/DataManagement.tsx:259-262 | the filter keeps the items' order |
| DataManagement.TotalPages | components/DataManagement.tsx:263 | the page count is `ceil(n/10)` |
| DataManagement.PageItems | components/DataManagement.tsx:264 | page `p` is the slice from `(p-1)*10` to `p*10`, clamped, so it holds at most 10 items |
| DataManagement.ShowingMatchesPage | components/DataManagement.tsx:369 | on an existing page, the "Showing" range counts exactly the items shown |
| DataManagement.PagesCoverAll | components/DataManagement.tsx:263-264 | the pages together are the whole filtered list |
| DataManagement.PrevPage | components/DataManagement.tsx:372 | "Prev" never goes below 1 and otherwise steps back one |
| DataManagement.NextPage | components/DataManagement.tsx:374 | "Next" never passes the page count and otherwise steps on one |
| DataManagement.NextPastTheLastPage | components/DataManagement.tsx:369-374 | with no results, "Next" is enabled and leads to page 0, which shows "Showing -9 to 0" |
| DataManagement.NextPageClamped | components/DataManagement.tsx:374 | the corrected "Next" never passes the last page, or page 1 when there are none |
| DataManagement.NextPageClampedStaysOnAPage | components/DataManagement.tsx:369-374 | with the corrected "Next", the page stays at least 1 and the "Showing" range never goes negative |
| DataManagement.StatusOf | components/DataManagement.tsx:65-71 | a truthy stored status is shown as stored; otherwise "Not Resolved" is shown; the shown status is always truthy |
| DataManagement.Enrich | components/DataManagement.tsx:65-71 | only the Enquiries page gets statuses; each item gets its stored status and keeps its other members |
| DataManagement.Toggle | components/DataManagement.tsx:185-194 | only the Enquiries page stores anything, and only under the toggled item's key |
| DataManagement.ToggleFlipsShownStatus | components/DataManagement.tsx:185-194 | "Resolved" becomes "Not Resolved", anything else becomes "Resolved" |
| DataManagement.ToggleTwice | components/DataManagement.tsx:185-194 | toggling twice restores a shown "Resolved" or "Not Resolved" |
| Form.GetFromStopsAtFalsy | components/DataManagement.tsx:418-419 | reading through a falsy value gives undefined |
| Form.GetNested | components/DataManagement.tsx:418-419 | a falsy form value reads as undefined; a path without a dot reads that member of a truthy value |
| Form.SetNestedValue | components/DataManagement.tsx:421-432 | the copy-and-descend loop computes the value that the recursive definition gives |
| Form.SetNested | components/DataManagement.tsx:421-432 | the result is always an object (the returned copy); a path without a dot writes that member of an object |
| Form.StepFailure | components/DataManagement.tsx:426-427 | a loop step throws exactly when the container is `null` or a falsy member cannot be replaced by `{}`, and with that error |
| Form.WalkPath | components/DataManagement.tsx:424-429 | the descent starts at the object, each container is the previous one's member (or the fresh `{}`), and it stops exactly at the first step that throws, with that error |
| Form.CarryUp | components/DataManagement.tsx:424-430 | carrying the write below back up the walked containers gives the recursive definition's value for the whole path |
| Form.WriteAlong | components/DataManagement.tsx:424-430 | the loop and the final write together give the recursive definition's value |
| Form.SetThenGet | components/DataManagement.tsx:418-432 | after a successful `setNestedValue`, `getNestedValue` on the same path gives the value written |
| Form.SetKeepsOtherMembers | components/DataManagement.tsx:421-432 | top-level members off the path are unchanged |
| Form.SetInKeepsOffPath | components/DataManagement.tsx:421-432 | at every level of the walk, reading a member other than the next one on the path gives what it gave before, also below a falsy member replaced by `{}` |
| Form.SetKeepsOffPathMembers | components/DataManagement.tsx:421-432 | `setNestedValue` keeps every member off the path, at every depth of the dotted path |
| Form.SetThroughFalsyMember | components/DataManagement.tsx:426-428 | a falsy intermediate member is replaced by a fresh object holding just the written value |
| Form.EmptyItem | components/DataManagement.tsx:438-445 | the template loop builds the item that the field-by-field definition gives |
| Form.EmptyItemShape | components/DataManagement.tsx:438-445 | the item maps each template field, in order, to `[]` for an array field and `""` otherwise |
| Form.AddArrayItemAppends | components/DataManagement.tsx:438-445 | adding appends exactly one empty item to the list at the path |
| Form.AddFirstArrayItem | components/DataManagement.tsx:438-445 | a missing list becomes a list of one empty item |
| Form.AddArrayItem | components/DataManagement.tsx:438-445 | a list that is neither an array nor a string throws; for a path without a dot, the member becomes the old list plus one empty item |
| Form.RemoveArrayItemDropsOne | components/DataManagement.tsx:447-451 | removing drops exactly that index and keeps the order |
| Form.RemoveArrayItem | components/DataManagement.tsx:447-451 | a value that is not an array throws; for a path without a dot, the member becomes the list without that index |
| EditorToHtml.Get | components/editorToHtml.js:8 | reading a member of undefined or null throws |
| EditorToHtml.EditorHtml | components/editorToHtml.js:8-38 | input without truthy `blocks` gives "" |
| EditorToHtml.RenderBlocks | components/editorToHtml.js:10-38 | the blocks render exactly when each block renders |
| EditorToHtml.BlockHtml | components/editorToHtml.js:12-36 | a block throws a TypeError exactly when it is `null`, a known block lacks `data`, a list's `items` is not an array, or an image lacks `data.file`; an unknown block gives "" |
| EditorToHtml.NoBlocksNoHtml | components/editorToHtml.js:10-38 | an empty `blocks` list gives "" |
| EditorToHtml.RenderConcat | components/editorToHtml.js:10-38 | the output is the in-order concatenation of the blocks' fragments |
| EditorToHtml.RenderOne | components/editorToHtml.js:10-38 | one block gives its own fragment |
| EditorToHtml.ItemsHtmlConcat | components/editorToHtml.js:21-29 | list items render in order |
| EditorToHtml.ParagraphVerbatim | components/editorToHtml.js:18-19 | a paragraph is `<p>` + text + `</p>`, with the text verbatim |
| EditorToHtml.HeaderTags | components/editorToHtml.js:13-16 | a header is an `h{level}` open tag and the matching close tag around the decoded text, with the template's whitespace |
| EditorToHtml.ImageTag | components/editorToHtml.js:31-32 | an image is `<img src="URL" />` |
| EditorToHtml.ListStyles | components/editorToHtml.js:21-29 | "ordered" gives `<ol>`, any other style `<ul>`, around the `<li>` items in order |
| EditorToHtml.UnknownBlockIsEmpty | components/editorToHtml.js:34-35 | a block of any other type gives "" |
| CollegeEditPage.BuildSavePayload | components/CollegeEditPage.tsx:57-69 | the step-by-step assignments compute the payload that the save definition gives |
| CollegeEditPage.SavePayload | components/CollegeEditPage.tsx:57-69 | a built payload has a `content` with a truthy `about`, and every other top-level member as in the record; it fails only for a truthy `content` that is not an object |
| CollegeEditPage.SaveFailsOnlyForNonObjectContent | components/CollegeEditPage.tsx:62-66 | the payload is built exactly when `content` is missing, falsy or an object; a truthy primitive `content` throws; an array `content` is outside the model (see Js.Assign under Left out) |
| CollegeEditPage.SaveAddsDefaultContent | components/CollegeEditPage.tsx:62-66 | a falsy `content` becomes `{about: {title: "About College", blocks: []}}` |
| CollegeEditPage.SaveKeepsContent | components/CollegeEditPage.tsx:62-66 | a truthy `about` stays as it is; the other members of `content` are kept; a falsy `about` gets the default |
| CollegeEditPage.SaveKeepsOtherMembers | components/CollegeEditPage.tsx:58-68 | every top-level member other than `content` is unchanged, and the key order stays |
| CollegeEditPage.SaveIdempotent | components/CollegeEditPage.tsx:58-68 | building the payload of a payload gives the same payload |
| CollegeEditPage.SaveRequest | components/CollegeEditPage.tsx:73-74 | nothing is sent exactly when no college is loaded; a built payload always has `content` |
| Columns.Read | constants.tsx:26-119 | a column reading a member of a `null` row throws |
| Columns.LocationParts | constants.tsx:26 | the location splits at its commas; a truthy non-string location throws |
| Columns.City | constants.tsx:26 | the city is the text before the first comma, or "" when there is no location |
| Columns.State | constants.tsx:31 | the state is the text between the first and second comma, or "" when there is no comma |
| Columns.CityAndState | constants.tsx:26-31 | for "city,state" with one comma, the parts come back as they are; "Delhi, India" keeps the space |
| Columns.CityCommaState | constants.tsx:26-31 | with exactly one comma, city, comma and state give back the location |
| Columns.CollegeStatus | constants.tsx:36 | the college status is "Draft" whatever the row holds |
| Columns.BlogStatus | constants.tsx:68 | "Published" exactly when `isPublished` is truthy, and "Draft" otherwise |
| Columns.OrFallback | constants.tsx:48-94 | any falsy value falls back; a truthy value is shown |
| Columns.CollegesOffering | constants.tsx:48 | a truthy `totalColleges` is shown, otherwise 0; a `null` row throws |
| Columns.Stream | constants.tsx:53 | a truthy `stream` is shown, otherwise "N/A"; a `null` row throws |
| Columns.EnquiryType | constants.tsx:94 | a truthy `type` is shown, otherwise "Contact"; a `null` row throws |
| Columns.CollegeId | constants.tsx:119 | only a missing or null id becomes "N/A" |
| Columns.FalsyIdIsShown | constants.tsx:52-119 | 0, "" and false are shown as an id but fall back as a stream |
| Columns.EventDate | constants.tsx:111 | a falsy date gives ""; a string keeps its first ten characters; a truthy value without `slice` throws |
| Columns.EventDateOfTimestamp | constants.tsx:111 | an ISO timestamp shows its date part |
| BulkUploadModal.SampleColumns | components/BulkUploadModal.tsx:27-30 | the columns are exactly the names of the fields that are not richtext, image or checkbox |
| BulkUploadModal.SampleColumnsConcat | components/BulkUploadModal.tsx:27-30 | the columns keep field order |
| BulkUploadModal.SampleCsvSplits | components/BulkUploadModal.tsx:27-30 | splitting the header line at commas gives back the column names |
| BulkUploadModal.SampleFileName | components/BulkUploadModal.tsx:36 | the name is `sample_`, then the lower-cased title, then `.csv` |
| BulkUploadModal.SampleFileNameIgnoresCase | components/BulkUploadModal.tsx:36 | titles differing only in case give the same file name |
| BulkUploadModal.UploadDialog.constructor | components/BulkUploadModal.tsx:14-16 | the dialog starts with no file, no error and no upload |
| BulkUploadModal.UploadDialog.HandleFileChange | components/BulkUploadModal.tsx:19-24 | the first chosen file is kept and the error cleared; an empty selection changes nothing |
| BulkUploadModal.UploadDialog.HandleSubmit | components/BulkUploadModal.tsx:42-63 | no file or a non-CSV file only sets its error and uploads nothing; a CSV file is uploaded while the flag is up and no error is shown; the flag is down afterwards and only a failed upload leaves an error |
| BulkUploadModal.UploadDialog.HandleClose | components/BulkUploadModal.tsx:65-70 | file, error and upload flag are reset and the parent is told once |
| ImportFromUrlModal.IndexOf | components/ImportFromUrlModal.tsx:33 | a found position holds the text and no earlier one does |
| ImportFromUrlModal.IndexOfAbsent | components/ImportFromUrlModal.tsx:33 | `indexOf` gives -1 exactly for a text that is not in the list |
| ImportFromUrlModal.NextInIsModulo | components/ImportFromUrlModal.tsx:32-35 | the step is `messages[(indexOf(prev)+1) % length]` |
| ImportFromUrlModal.NextMessage | components/ImportFromUrlModal.tsx:32-35 | the next message is always one of the messages |
| ImportFromUrlModal.NextMessageSteps | components/ImportFromUrlModal.tsx:32-35 | each message is followed by the next one in the list |
| ImportFromUrlModal.NextAfterLast | components/ImportFromUrlModal.tsx:32-35 | after the last message comes the first |
| ImportFromUrlModal.NextOfUnknown | components/ImportFromUrlModal.tsx:32-35 | a text not in the list steps to the first message |
| ImportFromUrlModal.FullRound | components/ImportFromUrlModal.tsx:32-35 | a full round of a list without repeats returns to the start |
| ImportFromUrlModal.SixTicksCycle | components/ImportFromUrlModal.tsx:11-35 | six ticks bring every message back |
| ImportFromUrlModal.ImportDialog.constructor | components/ImportFromUrlModal.tsx:21-24 | the dialog starts with an empty URL, no error, no import and the first message |
| ImportFromUrlModal.ImportDialog.HandleUrlChange | components/ImportFromUrlModal.tsx:93 | typing changes only the URL |
| ImportFromUrlModal.ImportDialog.Tick | components/ImportFromUrlModal.tsx:29-43 | a tick advances the message only while importing |
| ImportFromUrlModal.ImportDialog.SubmitStart | components/ImportFromUrlModal.tsx:45-54 | an empty URL, or one not starting with "http", only sets the error; an accepted URL raises the flag, clears the error and is handed on |
| ImportFromUrlModal.ImportDialog.SubmitSettled | components/ImportFromUrlModal.tsx:54-61 | the flag is down in every case; a failure sets the import error |
| ImportFromUrlModal.ImportDialog.HandleClose | components/ImportFromUrlModal.tsx:64-69 | URL, error and flag are reset and the parent is told once; the message is kept |
| Dashboard.GenerateMonthlyEnquiries | components/Dashboard.tsx:85-105 | twelve month entries in Jan..Dec order, each with the number of dated enquiries of its month |
| Dashboard.CountIn | components/Dashboard.tsx:94-104 | a month never counts more enquiries than there are |
| Dashboard.EntriesCountDatedEnquiries | components/Dashboard.tsx:94-104 | the month entries add up to the number of enquiries with a valid date |
| Dashboard.NoEnquiriesNoCounts | components/Dashboard.tsx:91-92 | every month starts at 0 |
| Dashboard.UndatedIsSkipped | components/Dashboard.tsx:95 | an enquiry with a falsy date adds to no month |

## Left out

- Network and storage: every `fetch` and the load and save effects are left out. `handleSave` is modelled only up to the request it would send.
- Browser objects are left out: `File`, `FormData`, `Blob`, `URL.createObjectURL`, the anchor-click download, and the DOM element used by `decodeHtml`. `decodeHtml` is a parameter of `EditorToHtml`. A chosen file is its name and MIME type.
- Time is left out. `new Date(d).getMonth()` is a parameter (`monthOf`) of `Dashboard`, so an invalid date is `None`. `setInterval` is the explicit method `ImportDialog.Tick`, and its 1.5 s period is not modelled.
- Asynchrony is split at the await. `ImportDialog` splits its submit into `SubmitStart` and `SubmitSettled`. `UploadDialog.HandleSubmit` takes the promise's outcome as a parameter. React's batching and re-rendering between the two halves are not modelled.
- Numbers are integers. Floats, `NaN` and the pie-label percentages are not modelled.
- Dashboard.GenerateMonthlyEnquiries: for an invalid date `months[NaN]` is undefined, so `monthCount[undefined] += 1` stores `NaN` under the key "undefined". No month entry reads that key, so it counts nothing, and the model leaves it out.
- Objects keep insertion order. JavaScript lists integer-like keys first; that ordering is not modelled.
- Built-in members such as `length` are not readable through `Js.Prop`.
- Js.Assign: in the JSON model an array takes only an index key below or at its length. Strict-mode JavaScript also sets a named property on an array, and an index past the end, leaving holes. The model answers `Err(Unsupported)` for these. So CollegeEditPage.SaveFailsOnlyForNonObjectContent does not cover an array `content` (the source builds a payload for `content: [1]`), and Form.SetNested through an array member with a named key is outside the model. AutoTable.EditBlock likewise fails for a block whose `data` is an array, where JavaScript sets the named member on it.
- Aliasing and in-place mutation are modelled as values. In the source:
  - `AutoDataTable`'s block edits write into objects shared with the previous state;
  - `setNestedValue` can leave a partly written copy when it throws;
  - `splice` updates the list in place;
  - `buildSavePayload` writes `about` into the original `content` object.

  The model computes only the resulting new document.
- When an editor's control throws while rendering, the model returns no edit (`None`). Crashes of sibling components are not modelled.
- Case mapping and whitespace are ASCII plus the JavaScript `trim` set. `toLowerCase` of non-ASCII letters is not modelled, and the regular expressions are modelled over ASCII letters only.
- Fields.FormatKeyIsByChars: the source's `^.` does not match a line terminator; the model upper-cases the first character anyway. Upper-casing a line terminator leaves it unchanged, so the result is the same.
- Fields.IsImageField: the source's separate test for the key `heroImages` is redundant. The contract shows that the name test already covers it.
- SmartRenderer.AddBlockToTextField: adding a block to a string field spreads the string, one member per character. The model keeps this behaviour of the source.
- ScrapedColleges.UpperCaseSchemeIsNotImage: `isImage` compares the "http" prefix with case. The model keeps this behaviour of the source.
- Nested `FormField.fields` are not modelled: the submit treats such a field like any other. As in the source, the text "true" or "false" becomes a boolean even in an array field, after the field was split.
- The `|| []` fallbacks that spread a string into characters are modelled (`Js.SpreadItems`).
- The enquiry status store kept in `localStorage` is a parameter (`store`). Reading it, writing it back, and a stored JSON text that is not an object are not modelled.
- CSV line endings: the export joins lines with `\n`. The parser in the model reads `\n` only; CRLF files are not modelled.
- Columns.State: the state is not trimmed, as in the source.
- ImportFromUrlModal.ImportDialog.HandleClose: closing does not reset the progress message, as in the source.
- The UI-only files are not part of this model: `Header`, `Sidebar`, `Login`, `Settings`, `BlogEditor`, `AddBlog`, `ExamEditPage`, `ExistingBlogEditor`, `App` routing, and the markup of every component. Only the render conditions the model states are kept: which controls are drawn and which renders throw.
- ScrapedColleges.CourseCardOf: the card's `isOpen` and `showDetails` toggles are parameters. A sub-course card is taken as closed, since it starts closed. When several children of one card would throw, the model reports a plain-object child of the card itself before a `null` sub-course; React's own order of reporting is not modelled.
- `types.ts` declares types only. `FormField` and `Column` are borrowed as datatypes.

## Findings

| source | as written | input that shows it | evidently intended | confidence | as-written member | corrected member |
|---|---|---|---|---|---|---|
| components/DataManagement.tsx:369-374 | "Next" is disabled only when `currentPage === totalPages` and sets `Math.min(totalPages, currentPage + 1)` | no results: `totalPages = 0` on page 1; "Next" is enabled, moves to page 0, and the footer reads "Showing -9 to 0 of 0" | "Next" stays on a page that exists (at least page 1) and the range is never negative | not executed | DataManagement.NextPastTheLastPage | DataManagement.NextPageClampedStaysOnAPage |
