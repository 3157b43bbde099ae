# Agricultural management app: the verified core

This project is a Dafny model of the decision logic of an agricultural
management application. The application has three parts:

- a browser front end for productions, sensors, crop cycles, cultivos and insumos;
- an Express/MySQL server;
- a second, Mongoose-based crop-cycle service.

The model covers the parts of that code that make decisions:

- **Production draft** (`ProduccionForm`):
  - the sensor selection, capped at three with no repeated id;
  - the insumo selection, with no repeated id;
  - the placeholder investment figures;
  - the submit gate;
  - the whole-form check that collects every error.
- **List views** (`Listing`, `Paging`, `Status`):
  - the filter bars of the five lists;
  - the investment summary;
  - the load normalisation;
  - client-side page slicing and the pagination bar;
  - the `activo`/`inactivo` toggles and the state badge.
- **Dashboard** (`Dashboard`):
  - the twelve-month production rollup;
  - the per-tipo counts and sums;
  - the count-card fallback.
- **Client validators and ids** (`Validation`, `EntityForms`, `Ids`, `Dates`):
  - the `validateField` rule chain and `validateForm`;
  - the sensor rule set;
  - the cycle, cultivo and insumo forms and their modal variants;
  - the `PREFIX-NNN` next-id computation;
  - `formatDate`, `getQueryParams` and the insumo total.
- **Server handlers over an in-memory store** (`ProduccionStore`, `CicloStore`, `EntityControllers`):
  - each handler maps a request and the table contents to a status code and a new table (or a store command);
  - validation comes before the existence check, which comes before the write.
- **The Mongoose crop-cycle collection** (`MongoCiclo`):
  - the schema's enum, default, required and unique constraints;
  - the pre-save id generator;
  - the controller's operations.

Support modules hold the shared vocabulary:

- `Wrappers`: `Option`.
- `Text`: trim, ASCII lowercasing, substring search, split/join.
- `Numbers`: decimal digits, `parseInt`, `parseFloat` on plain decimals, `padStart`.
- `Dates`: calendar dates, `YYYY-MM-DD` reading and writing.
- `Js`: JavaScript values and their truthiness, request bodies.
- `Seqs`: order-preserving filter, subsequence, counts and sums.
- `Sorting`: `ORDER BY … DESC` as an insertion sort.

Modelling choices:

- A request body is a `map<string, JsValue>`. An absent key reads as `undefined`.
- A table is a sequence of rows; a keyed table is a map.
- I/O becomes a parameter:
  - an upload's file name;
  - the current time;
  - the insert id;
  - the rows a fetch returned;
  - whether the browser's own form validity holds.

## Model

| member | source | states |
|---|---|---|
| ProduccionForm.AddSensor | public/js/modules/producciones/produccionForm.js:639-653 | refused with the list unchanged when three sensors are selected; otherwise refused unchanged when the id is already selected; otherwise exactly one `{id, name}` is appended at the end |
| ProduccionForm.RemoveSensor | public/js/modules/producciones/produccionForm.js:656-660 | no entry with the id remains, the result is an order-preserving subsequence, and every entry with another id stays |
| ProduccionForm.AddSensorKeeps | public/js/modules/producciones/produccionForm.js:639-653 | adding keeps the selection at most three long with distinct ids |
| ProduccionForm.RemoveSensorKeeps | public/js/modules/producciones/produccionForm.js:656-660 | removing keeps the selection at most three long with distinct ids |
| ProduccionForm.SensorOpsKeepInvariant | public/js/modules/producciones/produccionForm.js:639-660 | any sequence of additions and removals from a valid selection leaves it valid |
| ProduccionForm.FromEmptySensorsOk | public/js/modules/producciones/produccionForm.js:639-660 | starting from no sensors, no sequence of user actions exceeds three sensors or repeats an id |
| ProduccionForm.Inversion | public/js/modules/producciones/produccionForm.js:708-722 | inversion is 100 per selected insumo and meta is 1.5 times inversion |
| ProduccionForm.AddInsumo | public/js/modules/producciones/produccionForm.js:675-685 | never refused for count; refused with the draft unchanged exactly when the id is selected; otherwise appends one entry, sets inversion to 100 per insumo and meta to 1.5 times that, and changes no other field |
| ProduccionForm.RemoveInsumo | public/js/modules/producciones/produccionForm.js:688-693 | removes exactly the entries with the id, keeps the rest in order, leaves sensors alone, sets inversion and meta from the new count and changes no other field |
| ProduccionForm.InversionSteps | public/js/modules/producciones/produccionForm.js:675-722 | adding a new insumo raises inversion by exactly 100, and removing a selected one lowers it by exactly 100 |
| ProduccionForm.SubmitEnabled | public/js/modules/producciones/produccionForm.js:725-751 | an enabled button implies non-blank nombre, responsable, cultivo and ciclo, at least one sensor and one insumo, and ordered dates |
| ProduccionForm.FailuresInOrder | public/js/modules/producciones/produccionForm.js:461-508 | the reported errors are a subsequence of the checks in the order they are made |
| ProduccionForm.FailuresMember | public/js/modules/producciones/produccionForm.js:461-508 | a check is reported if and only if it fails |
| ProduccionForm.FailuresEmptyIff | public/js/modules/producciones/produccionForm.js:461-513 | nothing is reported exactly when every check passes |
| ProduccionForm.BuildPayload | public/js/modules/producciones/produccionForm.js:516-528 | the payload has estado `activo`, a trimmed nombre, the cultivo, ciclo and start date as entered, a null end date exactly when it is empty and the entered one otherwise, the ids of the selections, and the amounts parsed or 0 |
| ProduccionForm.AcceptedPayload | public/js/modules/producciones/produccionForm.js:452-529 | an accepted payload carries a nombre of at least three characters, the parsed responsable, a cultivo, a ciclo, a start date, and one id per selected sensor and insumo, at least one of each |
| ProduccionForm.GetFormData | public/js/modules/producciones/produccionForm.js:452-529 | accepted exactly when every check passes, and otherwise rejected with every failing check, not just the first |
| ProduccionForm.GetFormDataComplete | public/js/modules/producciones/produccionForm.js:452-529 | acceptance is equivalent to no check failing; a rejection lists exactly the failing checks |
| ProduccionForm.GateWeakerThanSubmit | public/js/modules/producciones/produccionForm.js:463-467 | the submit gate can be open for a nombre that trims to fewer than three characters, which the submit check then rejects |
| ProduccionForm.AcceptedOpensGate | public/js/modules/producciones/produccionForm.js:725-751 | a form the submit check accepts, with cultivo and ciclo non-blank and ordered dates, has the gate open |
| Listing.SearchTerm | public/js/modules/sensors/sensorList.js:228 | the kept term is never longer than what was typed |
| Listing.SearchFindsTypedText | public/js/modules/producciones/produccionList.js:212-238 | a row whose field contains the typed text is a hit for the lowered term |
| Listing.FilterProducciones | public/js/modules/producciones/produccionList.js:233-252 | the order-preserving subsequence of the productions matching the search, the estado and both date bounds |
| Listing.ProduccionNoFilters | public/js/modules/producciones/produccionList.js:236-249 | with an empty search, `todos` and no dates, every production is listed, in order |
| Listing.DateBoundsInclusive | public/js/modules/producciones/produccionList.js:245-249 | with readable bounds and start date, a row is kept exactly when desde ≤ fecha_inicio ≤ hasta |
| Listing.DateBoundAlone | public/js/modules/producciones/produccionList.js:245-249 | each date bound works without the other |
| Listing.SummaryAddsUp | public/js/modules/producciones/produccionList.js:270-290 | when every estado is `activo` or `inactivo`, the total is the active sum plus the inactive sum |
| Listing.NonNumericAmount | public/js/modules/producciones/produccionList.js:270-290 | a non-numeric inversion counts as 0 |
| Listing.SummaryOfAppend | public/js/modules/producciones/produccionList.js:270-290 | one more production adds its amount to the total and to the box of its estado |
| Listing.LoadProducciones | public/js/modules/producciones/produccionList.js:136-144 | a non-array response gives an empty list, and the filtered list is reset to the full list |
| Listing.LoadInsumos | public/js/modules/insumos/insumoList.js:176-183 | a missing `data` gives an empty list, and the filtered list is reset to the full list |
| Listing.LoadedIsUnfiltered | public/js/modules/producciones/produccionList.js:136-144 | right after a load, the shown list is what the empty filter bar selects |
| Listing.FilterSensors | public/js/modules/sensors/sensorList.js:311-332 | the order-preserving subsequence of matching sensors, with the page reset to 1 |
| Listing.SensorNoFilters | public/js/modules/sensors/sensorList.js:315-329 | empty filters list every sensor |
| Listing.FilterCiclos | public/js/modules/ciclos/cicloList.js:403-418 | the order-preserving subsequence of matching cycles, with the page reset to 1 |
| Listing.CicloNoFilters | public/js/modules/ciclos/cicloList.js:403-418 | empty filters list every cycle |
| Listing.FilterCultivos | public/js/modules/usuarios/usuarioList.js:315-335 | the order-preserving subsequence of matching cultivos, with the page reset to 1 |
| Listing.FilterInsumos | public/js/modules/insumos/insumoList.js:282-296 | the order-preserving subsequence of matching insumos |
| Listing.InsumoTipoIgnoresCase | public/js/modules/insumos/insumoList.js:289-290 | the tipo filter matches exactly when the lowercased tipos agree, so the case of either side does not matter |
| Listing.EstadoBody | public/js/modules/ciclos/cicloList.js:422-428 | a body whose only key is `estado` |
| Listing.ToggleProduccion | public/js/modules/producciones/produccionList.js:474-487 | a status request for the id with the flipped fetched estado |
| Listing.ToggleSensor | public/js/modules/sensors/sensorList.js:356-371 | sent only when the record was fetched, and then the fetched record with only `estado` flipped |
| Listing.ToggleCiclo | public/js/modules/ciclos/cicloList.js:422-428 | an update whose body holds only the flipped estado |
| Listing.ToggleCultivo | public/js/modules/usuarios/usuarioList.js:359-376 | sent exactly when confirmed, with the flipped state |
| Listing.ToggleInsumo | public/js/modules/insumos/insumoList.js:299-315 | sent exactly when confirmed, as a patch of `estado` alone |
| Listing.ToggleTwiceRestores | public/js/modules/producciones/produccionList.js:477 | toggling twice from a valid state asks for the starting state |
| Status.Flip | public/js/modules/producciones/produccionList.js:477 | the result is a valid status, and it is `inactivo` exactly when the input is `activo` |
| Status.FlipTwice | public/js/modules/producciones/produccionList.js:477 | two flips restore a valid status, and one flip changes it; any other value ends at `inactivo` after two flips |
| Status.StateBadge | public/js/util/utils.js:200-205 | `Activo` exactly for `activo`, `Inactivo` otherwise, and green exactly when `Activo` |
| Status.BadgeAfterFlip | public/js/util/utils.js:200-205 | a flip always switches the badge colour |
| Paging.TotalPages | public/js/modules/sensors/sensorList.js:159-162 | the smallest page count that covers n rows: zero exactly for no rows |
| Paging.PageItems | public/js/modules/sensors/sensorList.js:159-162 | page p holds at most `size` rows, which are the rows from (p−1)·size onward, and is empty past the end |
| Paging.PagesPrefix | public/js/modules/ciclos/cicloList.js:263-266 | the first k pages read in order are the first k·size rows |
| Paging.PagesPartition | public/js/modules/usuarios/usuarioList.js:163-166 | pages 1 to TotalPages, read in order, give back the whole list |
| Paging.PageOfRow | public/js/modules/sensors/sensorList.js:159-162 | row i appears on page i/size + 1 at position i mod size |
| Paging.SetPageSize | public/js/modules/sensors/sensorList.js:255-259 | a new page size goes back to page 1 and keeps the rows |
| Paging.SetFiltered | public/js/modules/sensors/sensorList.js:331 | a new filter result goes back to page 1 |
| Paging.Render | public/js/modules/sensors/sensorList.js:145-166 | no rows and no pagination exactly when the filtered list is empty; otherwise at most `size` rows and at least one page |
| Paging.RenderAfterFilter | public/js/modules/ciclos/cicloList.js:249-266 | after a non-empty filter change, the first page of the new result is shown |
| Paging.Links | public/js/util/utils.js:125-143 | one link per page from `from` to `to`, and only the current one is active and unclickable |
| Paging.Pagination | public/js/util/utils.js:108-155 | previous disabled iff on page 1, next disabled iff on the last page; at most 5 consecutive links, all within [1, total], the current one active |
| Paging.PaginationShowsCurrent | public/js/util/utils.js:125-143 | for a page in range, the bar shows its link, active, among at least min(total, 3) links |
| Dashboard.MonthIndex | public/js/dashboard.js:398-399 | a month index, when readable, is below 12 |
| Dashboard.MonthlyRollup | public/js/dashboard.js:394-402 | twelve buckets: bucket m counts the rows of month m and sums their investment, and the buckets add up to the dated rows |
| Dashboard.RollupStep | public/js/dashboard.js:396-401 | adding one row to the month buckets keeps the rollup invariant: the row's month gains one and its investment, the other months stay |
| Dashboard.BucketsRight | public/js/dashboard.js:394-402 | the bucket-by-bucket reference definition satisfies the rollup invariant for every row list |
| Dashboard.RollupCoversAll | public/js/dashboard.js:397-402 | when every start date is readable, the counts sum to the number of productions and the sums to the total investment |
| Dashboard.ProduccionChartFor | public/js/dashboard.js:372-402 | an error iff the response is unsuccessful or not an array; no chart iff the list is empty; otherwise the twelve-month rollup |
| Dashboard.RequestedRangeIsYear | public/js/dashboard.js:364-370 | the bounds read back as January 1 and December 31, and a date lies between them exactly when it is in that year |
| Dashboard.AddToKeys | public/js/dashboard.js:300-310 | adding to a grouping keeps keys distinct and adds exactly the new key |
| Dashboard.AddToLookup | public/js/dashboard.js:300-310 | adding v under a key raises that key's value by v and no other |
| Dashboard.AddToTotal | public/js/dashboard.js:338-348 | adding v raises the sum of all groups by v |
| Dashboard.GroupByKeys | public/js/dashboard.js:300-310 | every key appears once, and the keys are exactly those of the rows |
| Dashboard.GroupByLookup | public/js/dashboard.js:338-348 | each key holds the sum over the rows with that key |
| Dashboard.GroupByTotal | public/js/dashboard.js:338-348 | the groups add up to the sum over all rows |
| Dashboard.CultivosByTypeSpec | public/js/dashboard.js:300-310 | each tipo appears once with the number of cultivos of that tipo, and the counts sum to the number of cultivos |
| Dashboard.InsumosByTypeSpec | public/js/dashboard.js:338-348 | each tipo appears once with the sum of `parseFloat(valor_total) or 0` of its insumos, and the sums add up to the whole |
| Dashboard.ProduccionCount | public/js/dashboard.js:187-197 | an error card iff `success` is false; otherwise `count` when truthy, else the data length, else 0 |
| Dashboard.CountOfListResponse | public/js/dashboard.js:190 | the server's list response and a count-less response both show the number of rows |
| Dates.OrdinalOrder | server/models/produccionModel.js:27-31 | the sort key orders dates chronologically and tells distinct dates apart |
| Dates.YearRange | public/js/dashboard.js:364-370 | a date is between January 1 and December 31 of y exactly when its year is y |
| Dates.IsoRoundTrip | public/js/util/utils.js:17-25 | writing a date as `YYYY-MM-DD` and reading it back gives the date |
| Dates.FormatDate | public/js/util/utils.js:11-25 | `''` exactly for empty input or input `new Date` cannot read; a date-time value is read through its date part; `YYYY-MM-DD` for that format and `DD/MM/YYYY` for any other |
| Dates.FormatIsoIdentity | public/js/util/utils.js:11-25 | formatting an input date in the input format gives it back |
| Dates.FormatDateTimeOf | public/js/util/utils.js:11-25 | a date followed by a time of day, as the server sends `DATE` columns, formats as the date alone in both layouts |
| Dates.FormatLayouts | public/js/util/utils.js:17-25 | both layouts carry the same zero-padded day, month and year |
| Dates.ParseDateTime | public/js/modules/producciones/produccionList.js:245-249 | a date-time value is read through its leading `YYYY-MM-DD` |
| Ids.Pad3 | public/js/util/utils.js:413 | at least three decimal digits that read back as the number |
| Ids.IdNumber | public/js/util/utils.js:412 | the number is what `parseInt` reads from the piece after the first `-` |
| Ids.NextSuffix | public/js/util/utils.js:405-419 | `NaN` exactly when the last id has the prefix but no number; otherwise at least three digits, one more than the last number, or 1 for an empty list or a foreign last id |
| Ids.FormId | public/js/modules/ciclos/cicloForm.js:157-172 | edit mode keeps the record's id, and create mode assigns the next one |
| Ids.IdNumberOfPadded | public/js/modules/cultivos/cultivoForm.js:140-156 | an id built from a prefix and a padded number reads back as that number |
| Ids.NextAfter | public/js/util/utils.js:405-419 | after the id numbered n, the next id is numbered n + 1 |
| Ids.CreatedCountsUp | public/js/util/utils.js:405-419 | consecutive creations from an empty list number 001, 002, … |
| Ids.ParamsKeys | public/js/util/utils.js:211-222 | exactly the keys of the `&`-separated pairs become parameters |
| Ids.ParamsLast | public/js/util/utils.js:211-222 | each parameter has the value of the last pair naming it, and a pair without `=` gives `''` |
| Ids.GetQueryParams | public/js/util/utils.js:211-222 | the loop builds the map whose keys are the pair keys and whose values come from the last pair with each key |
| Ids.OnePair | public/js/util/utils.js:211-222 | `k=v` gives `{k: v}`, and `k` alone gives `{k: ''}` |
| Ids.ValorTotal | public/js/modules/insumos/insumoForm.js:178-182 | 0 when either input is not a number |
| Ids.ValorTotalOfWhole | public/js/util/utils.js:813-817 | for whole numbers, the total is the product |
| Ids.ValorTotalOfNumbers | public/js/modules/insumos/insumoForm.js:178-182 | when both inputs read as numbers, the total is their product |
| Validation.Decide | public/js/util/validation.js:18-78 | valid exactly when no rule of the chain fails; a required rule on an empty value reports the missing reason |
| Validation.FirstFailure | public/js/util/validation.js:18-78 | the reason reported is that of the first failing check in the fixed order, so at most one error is produced and a date rule hides the custom rule |
| Validation.TrimFirst | public/js/util/validation.js:13 | the outcome depends only on the trimmed value |
| Validation.Message | public/js/util/validation.js:18-38 | a missing value shows `Este campo es obligatorio`, and a pattern failure shows the rule's message |
| Validation.Results | public/js/util/validation.js:105-111 | at most one result per rule entry |
| Validation.ResultsCoverPresent | public/js/util/validation.js:105-111 | every present field is validated, even after an earlier failure, in rule order |
| Validation.ValidateForm | public/js/util/validation.js:99-114 | false for a missing form; otherwise true exactly when every present field is valid |
| Validation.ValidateAll | public/js/util/validation.js:105-113 | the loop over the rule entries shows one result per present field, in rule order, and reports success exactly when all of them are valid |
| Validation.ResultsValid | public/js/util/validation.js:99-114 | the form passes exactly when every rule entry's field is absent or valid |
| Validation.AllValidAppend | public/js/util/validation.js:109 | the conjunction over two runs of results is the conjunction of each |
| Validation.SensorRulesMeaning | public/js/modules/sensors/sensorForm.js:118-142 | the sensor rules pass exactly when nombre is 3 to 100 characters, unidad_medida at most 20, tiempo_escaneo at least 1, descripcion at least 10, and tipo and estado are filled in |
| Validation.VerdictMeaning | public/js/util/validation.js:18-51 | for rules without pattern, date or custom checks, validity is the required, length and minimum conditions in words |
| Validation.EntryMeaning | public/js/util/validation.js:18-51 | a rule entry without pattern, date, custom or maximum checks passes exactly when its field is absent or its trimmed value meets the required, length and minimum conditions |
| Validation.SubmitSensor | public/js/modules/sensors/sensorForm.js:145-150 | nothing is sent unless the form passes the sensor rules; then an update with the stored id in edit mode, otherwise a create, with the form's payload |
| EntityForms.EstadoOf | public/js/modules/ciclos/cicloForm.js:183 | the checkbox gives `activo` when checked and `inactivo` otherwise |
| EntityForms.CicloPayloadOf | public/js/modules/ciclos/cicloForm.js:175-184 | nombre and descripcion trimmed, novedades empty, the other inputs as typed, estado from the checkbox |
| EntityForms.CheckCiclo | public/js/modules/ciclos/cicloForm.js:228-244 | refused for an empty nombre, cultivo or either date, then for a start after the end; accepted otherwise |
| EntityForms.SameDayCicloAccepted | public/js/modules/ciclos/cicloForm.js:236-244 | a cycle that starts and ends on the same day is accepted |
| EntityForms.BlankCicloNameRejected | public/js/modules/ciclos/cicloForm.js:175-184 | a nombre of white space only is refused as missing |
| EntityForms.SubmitCiclo | public/js/modules/ciclos/cicloForm.js:154-200 | sent exactly when the check passes, and what is sent is the cycle payload of the inputs under the assigned id; edit mode updates the id it edits, and create mode uses `CICL-` plus the next number |
| EntityForms.CultivoPayloadOf | public/js/modules/cultivos/cultivoForm.js:159-168 | the free-text inputs trimmed, tipo and date as given, estado from the checkbox |
| EntityForms.CheckCultivo | public/js/modules/cultivos/cultivoForm.js:215-226 | accepted exactly when the five required fields are non-empty; the separate empty-tipo refusal is never reached |
| EntityForms.SubmitCultivo | public/js/modules/cultivos/cultivoForm.js:136-187 | sent exactly when the check passes, and what is sent is the cultivo payload of the inputs under the assigned id; edit mode keeps the id, and create mode uses `CULT-` plus the next number |
| EntityForms.InsumoPayloadOf | public/js/modules/insumos/insumoForm.js:144-154 | every text input trimmed, the amounts parsed with `parseFloat`, estado from the checkbox |
| EntityForms.InsumoCheckIgnoresTotalAndSign | public/js/modules/insumos/insumoForm.js:184-190 | the check never looks at the total nor at the amounts' signs |
| EntityForms.SubmitInsumo | public/js/modules/insumos/insumoForm.js:142-162 | sent exactly when the four text fields are non-empty and both amounts are numbers; update in edit mode, otherwise create |
| EntityForms.InitInsumoForm | public/js/modules/insumos/insumoForm.js:10-18 | create mode generates an id, and edit mode with a stored id loads the record; never both |
| EntityForms.GeneratedInsumoId | public/js/modules/insumos/insumoForm.js:101-115 | `INS-001` for an empty or missing list, otherwise `INS-` plus the next number; nothing when the request fails |
| EntityForms.SaveCultivoModal | public/js/util/utils.js:398-438 | nothing unless the browser's form validity holds; otherwise all six inputs as typed, without trimming, and the checkbox estado; edits send no id, and creates carry `CULT-` plus the next number |
| EntityForms.SaveCicloModal | public/js/util/utils.js:552-592 | as for cultivos, with `CICL-`: nombre, cultivo, both dates and descripcion as typed, the checkbox estado, and an empty `novedades` |
| EntityForms.SaveInsumoModal | public/js/util/utils.js:822-859 | as for cultivos with `INS-`, except that the payload always carries an id (the edited one or the next one), nombre, unidad and descripcion are trimmed, tipo is not, and the three amounts are parsed |
| EntityForms.CultivoModalMatchesForm | public/js/util/utils.js:421-433 | for typed text without surrounding white space, the cultivo modal sends the values the cultivo form would send, and a create carries the id the form would assign |
| EntityForms.CicloModalMatchesForm | public/js/util/utils.js:575-587 | the same agreement between the cycle modal and the cycle form |
| EntityForms.InsumoModalMatchesForm | public/js/util/utils.js:841-851 | for a tipo without surrounding white space, the insumo modal sends the insumo form's payload with the assigned id |
| Sorting.SortDesc | server/models/produccionModel.js:27-31 | a permutation of the rows in non-increasing key order |
| Sorting.SortDescMembership | server/models/produccionModel.js:27-31 | sorting keeps exactly the rows it was given |
| Sorting.SortDescOfSorted | server/models/produccionModel.js:27-31 | a list already in strictly decreasing key order comes back unchanged |
| ProduccionStore.GetAll | server/models/produccionModel.js:25-41 | every row, latest start first |
| ProduccionStore.GetById | server/models/produccionModel.js:43-57 | none exactly when no row has the id; otherwise a stored row with the id |
| ProduccionStore.MapWithId | server/models/produccionModel.js:61-78 | only the rows with the id are rewritten, and the length is kept |
| ProduccionStore.Update | server/models/produccionModel.js:61-78 | the nine data columns of the matching rows take the new values, the id and other rows are kept, and the result is true iff a row matched |
| ProduccionStore.UpdateStatus | server/models/produccionModel.js:112-121 | only `estado` of the matching rows changes, and the result is true iff a row matched |
| ProduccionStore.Delete | server/models/produccionModel.js:81-90 | the matching rows go and the rest stay in order; true iff a row was removed |
| ProduccionStore.DeleteShrinks | server/models/produccionModel.js:81-90 | the table shrinks exactly when some row has the id |
| ProduccionStore.GetByCicloId | server/models/produccionModel.js:93-109 | exactly the rows of that cycle, each as often as stored, latest start first |
| ProduccionStore.GetByDateRange | server/models/produccionModel.js:154-166 | exactly the active rows with start ≤ fecha_inicio ≤ end, each as often as stored, latest start first |
| ProduccionStore.RegisterUsage | server/models/produccionModel.js:174-195 | exactly one usage row appended, carrying all eight request columns, with fecha_uso defaulting to now and the total stored as supplied; productions untouched |
| ProduccionStore.GetInsumoUsage | server/models/produccionModel.js:198-213 | exactly the production's usage rows that join an existing insumo and user, each as often as stored, newest first |
| ProduccionStore.RegisteredUsageListed | server/models/produccionModel.js:174-213 | a registered usage whose insumo and user exist is listed for its production afterwards, and the listing gains no other row |
| ProduccionStore.UsageAppendOnly | server/models/produccionModel.js:174-213 | registering usage never hides a usage row that was listed before |
| ProduccionStore.HandleCreate | server/controllers/produccionController.js:4-8 | the body is stored without checks, with a 201 and the new id |
| ProduccionStore.HandleGetById | server/controllers/produccionController.js:31-42 | 404 exactly when no row has the id; otherwise the row |
| ProduccionStore.HandleUpdate | server/controllers/produccionController.js:44-55 | 404 with the store unchanged exactly when no row has the id; otherwise 200 and the update |
| ProduccionStore.MapUnmatched | server/models/produccionModel.js:61-78 | an update that matches nothing changes nothing |
| ProduccionStore.HandleDelete | server/controllers/produccionController.js:57-68 | 404 with the store unchanged exactly when no row has the id; otherwise 200 and the delete |
| ProduccionStore.HandleUpdateStatus | server/controllers/produccionController.js:80-103 | 400 for a missing or invalid estado before touching the store; then 404 for an unknown id; otherwise 200 and the status change |
| ProduccionStore.HandleGetByDateRange | server/controllers/produccionController.js:114-129 | 400 exactly when either bound is missing; otherwise success with the selection, possibly empty |
| ProduccionStore.StatusRoundTrip | server/controllers/produccionController.js:80-103 | after a successful status change, the row reads back with the new estado |
| ProduccionStore.StatusSetEverywhere | server/models/produccionModel.js:112-121 | every row with the id has the new estado |
| CicloStore.Create | server/models/cicloCultivoModel.js:6-28 | one row appended holding the body's eight columns (a missing one is NULL), with estado defaulting to `activo` when falsy |
| CicloStore.GetAll | server/models/cicloCultivoModel.js:30-42 | exactly the cycles whose cultivo exists, in table order |
| CicloStore.GetById | server/models/cicloCultivoModel.js:44-57 | a cycle with the id whose cultivo exists, and none exactly when there is no such cycle |
| CicloStore.MapWithId | server/models/cicloCultivoModel.js:59-86 | only the rows with the id are rewritten |
| CicloStore.Update | server/models/cicloCultivoModel.js:59-86 | all seven data columns of the matching cycles take the body's values (a missing one is NULL); id_ciclo and the other rows are kept |
| CicloStore.UpdateReadBack | server/models/cicloCultivoModel.js:29-86 | after a full update of an existing id naming a stored cultivo, the joined lookup finds the row and it holds every column the body wrote |
| CicloStore.SetStatus | server/models/cicloCultivoModel.js:89-115 | only estado of the matching cycles changes, and the result is true iff a row matched |
| CicloStore.GetByCrop | server/models/cicloCultivoModel.js:118-128 | exactly the cycles with that id_cultivo, in order, without the join |
| CicloStore.HandleCreate | server/controllers/cicloCultivoController.js:4-12 | stored without checks, with a 201 |
| CicloStore.HandleGetById | server/controllers/cicloCultivoController.js:44-69 | 404 exactly when the joined lookup finds nothing |
| CicloStore.HandleUpdate | server/controllers/cicloCultivoController.js:70-91 | a body holding only estado takes the status path unchecked, with 404 iff no row matched; any other body is a full update that never answers 404 |
| CicloStore.FullUpdateNeverNotFound | server/controllers/cicloCultivoController.js:86-91 | a full update of an unknown id reports success and changes nothing |
| CicloStore.HandleToggle | server/controllers/cicloCultivoController.js:99-127 | 400 for an estado outside {activo, inactivo} before any lookup; 404 for an unknown id; otherwise 200 and the status change |
| CicloStore.ToggleOrphanNotFound | server/controllers/cicloCultivoController.js:112-127 | a stored cycle whose cultivo is gone cannot be toggled |
| CicloStore.HandleGetByCrop | server/controllers/cicloCultivoController.js:139-147 | the count equals the number of rows returned |
| CicloStore.HandleGetAll | server/controllers/cicloCultivoController.js:24-43 | the count equals the number of rows returned |
| CicloStore.CreatedVisible | server/models/cicloCultivoModel.js:6-57 | a created cycle whose cultivo exists is found by id |
| EntityControllers.HandleToggle | server/controllers/cultivoController.js:180-217 | 400 for an invalid estado, then 404 for an unknown id, otherwise 200 and a status change of that row alone |
| EntityControllers.ToggleValidatesFirst | server/controllers/sensorController.js:129-166 | an estado refused for one table is refused the same way for any table |
| EntityControllers.HandleGetById | server/controllers/cultivoController.js:107-130 | 404 exactly when the id is unknown; otherwise the row |
| EntityControllers.MissingFields | server/controllers/cultivoController.js:15-25 | the required fields with falsy values, in declared order |
| EntityControllers.TrimOrNull | server/controllers/cultivoController.js:52-62 | a falsy value becomes null, a string is trimmed, and any other truthy value has no result (the trim throws) |
| EntityControllers.CultivoRecord | server/controllers/cultivoController.js:52-62 | exactly nine stored columns: the five checked fields trimmed, fecha_siembra as given, the trimmed descripcion, estado defaulting to `activo` (always truthy), fotografia the upload path, else the given value or null |
| EntityControllers.HandleCreateCultivo | server/controllers/cultivoController.js:10-84 | 400 exactly when a required field is missing (listing the missing ones) or not a string; 201 with the normalised record exactly when none are missing, all five are strings and descripcion can be trimmed; every other case (a truthy descripcion that is not a string) is 500 |
| EntityControllers.CultivoChecksMeaning | server/controllers/cultivoController.js:15-44 | the two 400 checks pass together exactly when every required field is a non-empty string |
| EntityControllers.HandleUpdateWithImage | server/controllers/cultivoController.js:133-177 | 404 for an unknown id; otherwise the body is written with the upload path, or, without an upload, with the stored image kept |
| EntityControllers.HandleAssociate | server/controllers/cultivoController.js:286-323 | 400 for a missing other id before any lookup, then 404, otherwise 200 and the association |
| EntityControllers.HandleCreateSensor | server/controllers/sensorController.js:10-33 | 201 and the body stored as given, with `imagen` set to the upload path when a file came |
| EntityControllers.HandleReadings | server/controllers/sensorController.js:189-215 | 400 unless both dates are given; the count is the number of readings returned |
| EntityControllers.BlankFields | server/controllers/insumoController.js:6-14 | the required fields that are undefined, null or `''`, in declared order |
| EntityControllers.InsumoRecord | server/controllers/insumoController.js:15-25 | exactly nine stored columns: id_insumo, nombre, tipo and unidad_medida trimmed; cantidad, valor_unitario and valor_total parsed; the trimmed descripcion; estado defaulting to `activo` |
| EntityControllers.HandleCreateInsumo | server/controllers/insumoController.js:4-39 | 400 listing the blank fields iff there are some; 201 and the insert of exactly the normalised record when the trimmed fields are strings and descripcion can be trimmed; every other case is 500 with no insert |
| EntityControllers.InsumoStoredTrimmed | server/controllers/insumoController.js:15-26 | a created insumo's four trimmed columns are strings that trimming again leaves unchanged |
| EntityControllers.ZeroAmountIsPresent | server/controllers/insumoController.js:6-14 | a quantity of 0 is not a missing field |
| EntityControllers.TotalNotRecomputed | server/controllers/insumoController.js:22 | the stored total does not depend on quantity or unit price |
| EntityControllers.HandleUpdateInsumo | server/controllers/insumoController.js:83-105 | 404 for an unknown id; otherwise 200 and the body written |
| EntityControllers.HandleDeleteInsumo | server/controllers/insumoController.js:108-122 | 200 and the delete, whether or not the id exists |
| EntityControllers.HandleCreateUsuario | server/controllers/usuarioController.js:49-74 | 400 with no insert when a required field is missing or the email is taken; otherwise 201 and exactly one user appended with the new id and the body's nombre, email, password and role |
| EntityControllers.CreateKeepsEmailsUnique | server/controllers/usuarioController.js:59-74 | creating users keeps emails unique |
| EntityControllers.ListUsuarios | server/controllers/usuarioController.js:6-20 | every user in table order, each with its id, nombre, email and role and no password |
| EntityControllers.HandleGetUsuario | server/controllers/usuarioController.js:25-44 | 404 exactly when no user has the id; otherwise 200 and that user's id, nombre, email and role, never the password |
| EntityControllers.FoundUsuarioListed | server/controllers/usuarioController.js:6-44 | the user found by id is one of the users listed, in the same projection |
| EntityControllers.CreatedUsuarioFound | server/controllers/usuarioController.js:25-74 | a user created under a fresh id is found by that id, with the nombre, email and role the body gave |
| MongoCiclo.Strict | backend/src/models/cicloCultivo.js:3-59 | the schema's own paths of a body are kept as they are and every other path is dropped |
| MongoCiclo.NewDocument | backend/src/models/cicloCultivo.js:3-59 | a new document holds schema paths only, with the body's values for all but estado |
| MongoCiclo.WithDefaults | backend/src/models/cicloCultivo.js:25-29 | an unset estado becomes `planificado`, and nothing else changes |
| MongoCiclo.AssignId | backend/src/models/cicloCultivo.js:61-67 | a document without id_ciclo gets `CIC-` and the count plus one, padded; any other document is unchanged |
| MongoCiclo.GeneratedIdNumber | backend/src/models/cicloCultivo.js:61-67 | the generated id reads back as the count plus one |
| MongoCiclo.CreateAsWritten | backend/src/models/cicloCultivo.js:3-67 | save as written: refused with nothing changed exactly when the new document (schema paths only, estado defaulted) fails validation, a missing id_ciclo included, or its id is taken; otherwise that document and the body's arrays are appended |
| MongoCiclo.CreateAsWrittenRefusesMissingId | backend/src/models/cicloCultivo.js:4-8 | as written, a body without id_ciclo is always refused |
| MongoCiclo.MissingIdExample | backend/src/models/cicloCultivo.js:61-67 | a concrete body with every other required path is refused |
| MongoCiclo.Create | backend/src/controllers/cicloCultivoController.js:34-42 | refused with nothing changed exactly when the prepared document (schema paths only) fails validation or its id is taken; otherwise it is appended with the body's arrays, its id the body's or the generated one when the body has none |
| MongoCiclo.CreateGeneratesId | backend/src/models/cicloCultivo.js:61-67 | with the hook first, a body lacking only its id is stored under the generated id when that id is free |
| MongoCiclo.CreateKeepsInvariants | backend/src/models/cicloCultivo.js:4-29 | creating keeps ids unique and every estado in the enum |
| MongoCiclo.Find | backend/src/controllers/cicloCultivoController.js:17-31 | the position of the first document with the id, and none exactly when the id is not taken |
| MongoCiclo.GetById | backend/src/controllers/cicloCultivoController.js:17-31 | 404 exactly when no document has the id; otherwise one that has it |
| MongoCiclo.Update | backend/src/controllers/cicloCultivoController.js:45-60 | 400 for an estado outside the enum before the lookup, then 404, otherwise 200 with the body's schema paths merged into the first match only |
| MongoCiclo.UpdateKeepsOtherPaths | backend/src/controllers/cicloCultivoController.js:45-60 | an update leaves every path it does not name as it was |
| MongoCiclo.CreateKeepsSchemaOnly | backend/src/models/cicloCultivo.js:3-59 | a collection holding schema paths only still does after a create, whatever the body carries |
| MongoCiclo.UpdateKeepsSchemaOnly | backend/src/controllers/cicloCultivoController.js:45-60 | the same holds after an update |
| MongoCiclo.Delete | backend/src/controllers/cicloCultivoController.js:63-74 | 404 exactly when no document has the id; otherwise exactly one document removed, the rest in order |
| MongoCiclo.DeleteRemovesId | backend/src/controllers/cicloCultivoController.js:63-74 | with unique ids, the deleted id is gone afterwards |
| MongoCiclo.GetByEstado | backend/src/controllers/cicloCultivoController.js:77-87 | exactly the documents whose estado equals the parameter, in order |
| MongoCiclo.GetByUnknownEstadoEmpty | backend/src/controllers/cicloCultivoController.js:77-87 | an estado outside the enum selects nothing from a valid collection |
| MongoCiclo.AddInsumo | backend/src/controllers/cicloCultivoController.js:90-104 | 404 with nothing changed for an unknown id; otherwise the entry is appended to the first match's insumos and nothing else changes |
| MongoCiclo.AddInsumoTwiceAppendsTwice | backend/src/controllers/cicloCultivoController.js:98-99 | recording the same entry twice records it twice |
| MongoCiclo.AddSensor | backend/src/controllers/cicloCultivoController.js:107-124 | 404 for an unknown id; otherwise the sensor is appended only when absent |
| MongoCiclo.AddSensorIdempotent | backend/src/controllers/cicloCultivoController.js:115-118 | assigning the same sensor twice equals assigning it once |
| MongoCiclo.OperationsKeepEstados | backend/src/controllers/cicloCultivoController.js:45-124 | update, delete, addInsumo and addSensor keep every estado in the enum |

## Left out

- Dashboard grouping order: groups are kept in insertion order. JavaScript lists integer-like keys first, in ascending order, so a tipo such as `"2"` would move to the front of a chart. Only the drawing order is affected.
- DOM, rendering, toasts, modals and chart drawing: these hold no decisions beyond the ones modelled. The model stops at the data each view shows.
- HTTP clients, Express routing and the polling loop in the insumo API helper: these are wiring and timing.
- Spreadsheet and PDF export: these are thin wrappers over libraries.
- 500 answers for database or network failures: the store is a total in-memory value that cannot fail. The 500 answers modelled are those thrown by `trim` on a value that is not a string, in `createInsumo` and for `descripcion` in `createCultivo`.
- `toFixed` rounding, `formatCurrency` and `formatNumber`: amounts are `real` with no rounding or locale formatting.
- `parseFloat` and `parseInt`: read only plain decimal digits with an optional sign and point. Exponents, `Infinity` and hexadecimal are not read.
- `toLowerCase`: lowers ASCII letters only. The JavaScript method lowers all of Unicode.
- String lengths: strings are sequences of Unicode scalar values, so a length counts code points. JavaScript counts UTF-16 code units, and a character outside the Basic Multilingual Plane counts twice there.
- Js.ParseFloatValue: reads every array as `NaN`. JavaScript `parseFloat` reads an array through its string form, so `parseFloat([5])` is 5.
- `decodeURIComponent` in `getQueryParams`: treated as the identity.
- A rule's regular expression: its `test` is an uninterpreted predicate on the value.
- `new Date(...)`: read only for `YYYY-MM-DD`, optionally followed by a time part. There are no time zones. A value it cannot read is an invalid date.
- A production date-range filter with an unreadable bound: selects nothing. In the browser the comparison against an invalid date is false.
- The SQL engine: it becomes sequences of rows with explicit filter, join and order. `affectedRows` is read as the number of matched rows.
- Multer uploads: the uploaded file name is a parameter.
- `fs.unlinkSync` of replaced images: a side effect on files.
- `Date.now`, `Math.random`, `generateId`, debounce and timers: nondeterministic. The current time and the insert id are parameters.
- The plain CRUD models for cultivos, sensors and insumos: they are SQL pass-through. Their handlers issue a store command (`Effect`) instead.
- The sensor readings store behind `getSensorReadings`: the readings are a parameter. `saveSensorReading` is not part of this model.
- `public/js/modules/usuarios/usuarioForm.js`: it is not valid JavaScript.
- The user list and detail views: they only display data.
- The MySQL collation: the email uniqueness check in `createUsuario` compares exactly. The database compares case-insensitively.
- Mongoose: casting of non-string values and of array entries, `populate`, timestamps, and required validators on update are left out. Arrays replaced through an update body and unique-index violations on update are also left out. Strict mode is modelled for the scalar paths only; undeclared keys inside array entries are kept.
- Paging.TotalPages: requires a page size of at least 1. The selectors only offer positive sizes.
- Listing.SearchTerm: its contract states only the length bound. What the term finds is stated by Listing.SearchFindsTypedText.

## Findings

| source | as written | input that shows it | evidently intended | confidence | as-written member | corrected member |
|---|---|---|---|---|---|---|
| backend/src/models/cicloCultivo.js:4-8, 61-67 | `id_ciclo` is `required`, and Mongoose validates before running `pre('save')` hooks, so a document without `id_ciclo` is refused before the generator can assign one | `MongoCiclo.SampleBody()`: every required path set except `id_ciclo` | a document without `id_ciclo` receives `CIC-` and the count plus one, zero-padded, and is stored | medium; not executed | MongoCiclo.CreateAsWritten, MongoCiclo.MissingIdExample | MongoCiclo.Create, MongoCiclo.CreateGeneratesId |
