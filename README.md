# Elasticsearch tools: spreadsheet import and index copy, modelled in Dafny

This project models the core of `es_operation/excel_to_es.py`, a small
toolkit around an Elasticsearch index. It covers:

- **`EsData.load` / `EsData.convert_data_type`** (module `Loader`, with the
  date formatting in `Cells`). The first row of the active sheet names the
  fields, and an empty header cell aborts the load with no rows. Every later
  row that holds at least one value becomes a record keyed by the header
  names, with date cells written as `%Y-%m-%d %H:%M:%S` text.
- **`ElasticObj`** (module `Elastic`, with the value-level definitions in
  `Batching`), a client bound to one index:
  - `bulk_index_data` keeps the records whose every field is a property of
    the index. It sends them in bulk requests of 1000 actions and sends the
    remainder in one last request.
  - `__bulk` tries the bulk helper up to three times and stops at the first
    call that returns.
  - `is_property`, `search_by_single_field` and `delete_by_id` are modelled
    as well.
  - `scroll_search` keeps the scroll cursor of the client between pages.
- **`EsData.update_insert` and `EsData.del_by_single_field`** (module
  `Upsert`). Each row is matched against the index on one key field. Without
  a key field, or when nothing matches, the row is inserted. When old
  documents are to be replaced, the matching documents are deleted and the
  row is inserted. Otherwise the row is skipped. A row without the key field
  ends the call before its bulk request, as the `KeyError` does. So does a
  row whose key cell is empty: the engine refuses a `match` on `None`, and
  the `RequestError` is not caught.
- **`EsData.update_insert_from_excel`** (module `Excel`). The index name is
  the file's base name without `.xlsx`. The listed text fields and number
  fields of every loaded row get fresh values, and the rows go through
  `update_insert`.
- **`dump`** (module `Transfer`). It copies an index page by page: a scroll
  cursor reads the source, and `bulk_index_data` writes the target.

The state of an index is stated explicitly:

- its documents, by id;
- the next id the engine hands out;
- how many times the bulk helper has been called.

The client also keeps ghost logs of the `bulk_index_data` calls, of the
bulk requests and of the scroll requests. The bulk helper's answers
(`nat -> BulkReply`), the HTTP replies of the scroll API, and the values of
`create_uid` and `create_num_uid` are parameters of the model.

## Where the code and its description differ

`scroll_search` (lines 202-216). One can read lines 210-212 as saying that a
later page requested without a stored scroll id gives an empty result. As
written, no `json_data` is bound on that path. Line 214 reads it before the
`try` of line 218, so the call raises `UnboundLocalError` and nothing is
sent. `dump` (line 453) does not catch this exception: the copy ends with
the exception. This happens when a first page with hits carries no
`_scroll_id`.

The model follows the code:

- `ElasticObj.ScrollSearch` returns `Unbound`.
- `Transfer.Dump` returns `crashed == true`.
- `Transfer.FirstPageWithoutCursor` shows the case: the first page is copied
  and the copy then raises.

## Model

| member | source | states |
|---|---|---|
| Cells.FormatDate | es_operation/excel_to_es.py:278 | the text is 19 characters, with `-` between the date fields, a space before the time, and `:` between the time fields |
| Cells.PaddedRoundTrip | es_operation/excel_to_es.py:278 | a zero-padded field of `strftime` reads back as the number written |
| Cells.FormatDateRoundTrip | es_operation/excel_to_es.py:277-278 | the `%Y-%m-%d %H:%M:%S` text of a date is 19 characters long and reads back as the same date with microseconds dropped |
| Cells.FormatDateInjective | es_operation/excel_to_es.py:277-278 | two dates give the same text exactly when they agree up to the second |
| Cells.FormatDateExample | es_operation/excel_to_es.py:278 | 2024-01-02 10:00:00 is written `2024-01-02 10:00:00` |
| Loader.ConvertDataType | es_operation/excel_to_es.py:269-281 | a cell of type `d` becomes 19 characters of text; any other cell is returned unchanged |
| Loader.FieldValueSpec | es_operation/excel_to_es.py:277-281 | a loaded cell is never a date: a date becomes text that reads back as that date, an empty cell stays empty, any other value is unchanged |
| Loader.RowDictKeys | es_operation/excel_to_es.py:304-309 | the record of a row has exactly the header names as fields |
| Loader.RowDictValues | es_operation/excel_to_es.py:306-309 | each field holds the converted cell of the last column with that name (later dict assignments win) |
| Loader.KeptMembers | es_operation/excel_to_es.py:303-315 | a row is kept exactly when it is one of the data rows and holds a value, and no row is added |
| Loader.KeptAll | es_operation/excel_to_es.py:313-315 | when no data row is empty, every row is kept |
| Loader.KeptAppend | es_operation/excel_to_es.py:303-315 | keeping rows commutes with concatenation, so kept rows keep sheet order |
| Loader.Records | es_operation/excel_to_es.py:303-315 | one record per row, in order, each the row's record |
| Loader.Loaded | es_operation/excel_to_es.py:295-315 | with a complete header there is one record per non-empty data row |
| Loader.LoadedRecords | es_operation/excel_to_es.py:283-316 | the `i`-th loaded record comes from the `i`-th non-empty data row, with exactly the header names as fields and the converted cells as values |
| Loader.ReadRow | es_operation/excel_to_es.py:304-312 | the inner loop builds the row's record and tells whether every cell is empty |
| Loader.Load | es_operation/excel_to_es.py:283-316 | an empty header cell gives `[]`; otherwise the result is the records of the non-empty data rows |
| Batching.AcceptedMembers | es_operation/excel_to_es.py:50-58 | a record is submitted exactly when every one of its fields is a property of the index |
| Batching.AcceptedAppend | es_operation/excel_to_es.py:50-58 | filtering commutes with concatenation: order is kept |
| Batching.RejectedRecordDroppedAlone | es_operation/excel_to_es.py:50-58 | a record with an unknown field is dropped without affecting the records around it |
| Batching.ToActionsSpec | es_operation/excel_to_es.py:53-58 | each action targets the index and `_doc` and carries its record |
| Batching.Chunks | es_operation/excel_to_es.py:59-63 | every request holds between 1 and 1000 actions |
| Batching.ChunksConcat | es_operation/excel_to_es.py:59-63 | the requests, concatenated, are exactly the actions, in order |
| Batching.ChunksCount | es_operation/excel_to_es.py:59-63 | one request per started thousand actions |
| Batching.ChunksOfFull | es_operation/excel_to_es.py:49-63 | full thousands followed by a shorter rest are exactly the chunks of their concatenation |
| Batching.BatchesOf | es_operation/excel_to_es.py:49-63 | each request holds 1..1000 actions, and there is one request per started thousand accepted records |
| Batching.BatchesOfSpec | es_operation/excel_to_es.py:43-63 | the requests of a call hold 1..1000 actions, concatenated they are the accepted records in input order, and all target the index |
| Batching.FirstSuccessSpec | es_operation/excel_to_es.py:72-80 | the attempt reported is one that returned, every earlier one raised, and with none every attempt raised |
| Batching.FirstSuccessAt | es_operation/excel_to_es.py:72-76 | the first attempt that returns is the one the loop breaks at |
| Batching.FirstSuccessNone | es_operation/excel_to_es.py:72-80 | when every attempt raises there is no success |
| Batching.InsertedSpec | es_operation/excel_to_es.py:74 | a successful request adds exactly the ids `next`..`next+n-1`, each with its document, and leaves existing documents untouched |
| Batching.InsertedAppend | es_operation/excel_to_es.py:74 | indexing two lists in turn is indexing their concatenation |
| Batching.BulkStep | es_operation/excel_to_es.py:65-80 | one `__bulk` call makes 1 to 3 attempts; a success reports the batch size and moves the next id past the batch; `None` comes only after all 3 attempts, with the documents and the next id as they were |
| Batching.BulkStepSpec | es_operation/excel_to_es.py:65-80 | `__bulk` makes 1 to 3 attempts and stops at the first success; it returns the batch size then, with every action indexed under a fresh id, or `None` only after all 3 attempts raised, with the documents unchanged |
| Batching.ApplyBatchesKeeps | es_operation/excel_to_es.py:43-80 | sending requests never alters or removes an indexed document and makes at least one attempt per request |
| Batching.ApplyBatchesAllDone | es_operation/excel_to_es.py:43-80 | when every bulk call returns, each request takes one attempt and the actions are indexed in order under consecutive fresh ids |
| Batching.ApplyCalls | es_operation/excel_to_es.py:43-80 | whatever the bulk helper answers, a sequence of `bulk_index_data` calls leaves every id below the next id the engine hands out |
| Batching.ApplyCallsKeeps | es_operation/excel_to_es.py:43-80 | a sequence of `bulk_index_data` calls never alters or removes an indexed document, and the next id and the attempt count never go down |
| Batching.ApplyCallsAllDone | es_operation/excel_to_es.py:43-80 | when every bulk call returns, a sequence of calls indexes exactly their accepted records, call after call, under consecutive fresh ids next to the documents already there |
| Elastic.Put | es_operation/excel_to_es.py:232 | `d[id] = source` appends a new id and keeps the place of a known one |
| Elastic.HitsDictKeys | es_operation/excel_to_es.py:228-232 | the dict of a page holds exactly the ids of its hits, and it is empty exactly when there are no hits |
| Elastic.HitsDictValue | es_operation/excel_to_es.py:228-232 | each id holds the source of the last hit carrying it |
| Elastic.HitsDictDistinct | es_operation/excel_to_es.py:228-232 | with distinct ids the dict keeps every hit, in hit order |
| Elastic.HitsDictValues | es_operation/excel_to_es.py:228-232 | with distinct ids the values are the hits' sources, in hit order |
| Elastic.Cursor | es_operation/excel_to_es.py:218-224 | a changed scroll id comes from a 200 response whose body decodes, and is its `_scroll_id`; a held scroll id is never lost |
| Elastic.CursorSpec | es_operation/excel_to_es.py:218-224 | the scroll id is replaced only by a 200 response carrying `_scroll_id`; otherwise it is kept |
| Elastic.PageOf | es_operation/excel_to_es.py:218-239 | the ids of a page are distinct and are exactly its keys; a page with hits comes from a decoded response and holds no more ids than it has hits |
| Elastic.PageOfHitOrder | es_operation/excel_to_es.py:226-232 | a 200 page without error whose hits carry distinct ids lists them in hit order, each with its hit's source |
| Elastic.PageOfSpec | es_operation/excel_to_es.py:218-239 | a page has hits exactly when the response is 200, decodes, has no error and carries hits |
| Elastic.ElasticObj.constructor | es_operation/excel_to_es.py:34-41 | a fresh client has type `_doc`, the index's property list and no scroll id |
| Elastic.ElasticObj.IsProperty | es_operation/excel_to_es.py:103-115 | true exactly when every field of the record is a property |
| Elastic.ElasticObj.Bulk | es_operation/excel_to_es.py:65-80 | the new index state and the result are those of `BulkStep` |
| Elastic.ElasticObj.BulkIndexData | es_operation/excel_to_es.py:43-63 | the requests sent are `BatchesOf` the items, and the index state is what they produce in turn |
| Elastic.ElasticObj.SearchBySingleField | es_operation/excel_to_es.py:116-164 | a search on an empty (`None`) value is refused; any other search returns exactly the stored documents whose field equals the value |
| Elastic.ElasticObj.DeleteById | es_operation/excel_to_es.py:166-173 | exactly that document is removed; nothing else changes |
| Elastic.ElasticObj.ScrollSearch | es_operation/excel_to_es.py:183-239 | the first page writes `size` into the query and sends it; a later page sends the stored scroll id, or raises before sending when there is none; the cursor and the page follow the reply |
| Upsert.DecideSpec | es_operation/excel_to_es.py:331-350 | one row deletes only, and keeps the other documents as they are; it is inserted or skipped; a row lacking the key field, or a value in it, stops the call; deletions happen only when old documents are replaced and the row is then inserted; after a keyed insert nothing in the index matches the row's key |
| Upsert.Reconcile | es_operation/excel_to_es.py:318-352 | rows only delete documents and never alter a kept one, and at most one row is inserted per input row |
| Upsert.ReconcileWithoutKey | es_operation/excel_to_es.py:348-350 | without a key field every row is inserted in order and nothing is deleted |
| Upsert.ReconcileFails | es_operation/excel_to_es.py:333-334 | the call stops before its bulk request exactly when some row lacks the key field or holds an empty key cell |
| Upsert.ReconcileFailedStays | es_operation/excel_to_es.py:333-334 | once a row has stopped the call, later rows change nothing |
| Upsert.NullKeyStops | es_operation/excel_to_es.py:333-334 | a row whose key cell is empty stops the call at its search, deleting and inserting nothing of its own |
| Upsert.ReconcileKeep | es_operation/excel_to_es.py:342-347 | keeping old documents deletes nothing and inserts exactly the rows that matched nothing, in order |
| Upsert.ReconcileReplaceAdded | es_operation/excel_to_es.py:335-347 | when every row holds a value in the key field, replacing old documents inserts every row, in order |
| Upsert.ReconcileReplaceDocs | es_operation/excel_to_es.py:337-341 | replacing old documents deletes exactly the documents matching some row's key |
| Upsert.SameCallRowsInvisible | es_operation/excel_to_es.py:329-352 | rows are looked up against the index before the bulk request, so two unmatched rows with one key are both inserted |
| Upsert.DeletesOnlyWhenReplacing | es_operation/excel_to_es.py:331-347 | with no key field, or with old documents kept, no document is deleted |
| Upsert.DeleteAll | es_operation/excel_to_es.py:339-340 | every id the search returned is deleted, and nothing else |
| Upsert.UpdateInsert | es_operation/excel_to_es.py:318-352 | the result of the loop is `Reconcile`'s; on success there is exactly one `bulk_index_data` call, with the selected rows in order, and the bulk requests sent are `BatchesOf` those rows |
| Upsert.DelBySingleField | es_operation/excel_to_es.py:354-368 | the documents left are those left by `update_insert` when old documents are replaced, and no bulk request is made; a row lacking the key field or a value in it stops the call there |
| Upsert.DeleteMatches | es_operation/excel_to_es.py:364-368 | one search and the deletion of every document it finds; a search on an empty value is refused and deletes nothing |
| Excel.BaseName | es_operation/excel_to_es.py:381 | the base name holds no `/`, ends the path, and follows a `/` when shorter than the path |
| Excel.BaseNameOfJoin | es_operation/excel_to_es.py:381 | the base name of `dir/name` is `name` |
| Excel.ReplaceAllAbsent | es_operation/excel_to_es.py:381 | `str.replace` leaves a string without the pattern unchanged |
| Excel.ReplaceAllChars | es_operation/excel_to_es.py:381 | replacing brings in no character absent from the string and the replacement |
| Excel.StripSuffix | es_operation/excel_to_es.py:381 | `<stem>.xlsx` loses exactly the extension when the stem holds no `.xlsx` |
| Excel.IndexNameOf | es_operation/excel_to_es.py:381 | the index name holds no `/` |
| Excel.IndexNameOfSpec | es_operation/excel_to_es.py:380-381 | the index name holds no `/`, and `<dir>/<stem>.xlsx` gives the index `<stem>` |
| Excel.AssignKeys | es_operation/excel_to_es.py:385-388 | after the assignments the row has its own fields plus the listed ones |
| Excel.AssignOthers | es_operation/excel_to_es.py:385-388 | a field that is not listed keeps its value |
| Excel.AssignValue | es_operation/excel_to_es.py:385-388 | a listed field holds the value of its last listing |
| Excel.Stamp | es_operation/excel_to_es.py:385-388 | a stamped row has exactly its own fields plus the listed text and number fields |
| Excel.StampSpec | es_operation/excel_to_es.py:384-388 | a stamped row has its fields plus the listed ones; a number field ends as a number and a text-only field as a text; other fields are unchanged |
| Excel.StampAllSpec | es_operation/excel_to_es.py:384-388 | every loaded row, at its own position, has its fields plus the listed ones, keeps its unlisted fields, and holds in each number field the number of its last listing for that position |
| Excel.StampAllNothing | es_operation/excel_to_es.py:370 | with the default empty field lists the rows are left as loaded |
| Excel.StampRow | es_operation/excel_to_es.py:385-388 | the two inner loops produce `Stamp` of the row |
| Excel.OverwriteFields | es_operation/excel_to_es.py:384-388 | the outer loop stamps every row with the values of its own position |
| Excel.UpdateInsertFromExcel | es_operation/excel_to_es.py:370-389 | the client's index is named after the file; the loaded and stamped rows go through `update_insert`, with its calls, bulk requests and final index state; when a row lacks the key field only the deletions happen, and no call, request or new id follows; the scroll id and scroll requests are untouched |
| Transfer.CopyFrom | es_operation/excel_to_es.py:450-453 | pages are handed over exactly when the page in hand has hits, at most one per reply still to come, and the copy raises only after handing over a page |
| Transfer.Copied | es_operation/excel_to_es.py:450-453 | the copy hands over nothing exactly when the first page is empty, at most one page per reply, and raises only after handing over a page |
| Transfer.CopyFromNonEmpty | es_operation/excel_to_es.py:451-452 | every page handed to the target has at least one document |
| Transfer.CursorAfter | es_operation/excel_to_es.py:451-453 | the scroll id the source holds once the copy stops; a held scroll id is never given up |
| Transfer.SentFrom | es_operation/excel_to_es.py:451-453 | the scroll requests sent from the page in hand on number at most the replies still to come |
| Transfer.ScrollLog | es_operation/excel_to_es.py:450-453 | the source is first sent the initial search with `size` 10000 and a 5-minute scroll, and every later request asks for a next page |
| Transfer.SentNext | es_operation/excel_to_es.py:453 | every request after the first asks for a next page with a 5-minute scroll |
| Transfer.CopyStart | es_operation/excel_to_es.py:450 | the copy starts with the first page in hand |
| Transfer.CopyAdvance | es_operation/excel_to_es.py:451-453 | handing over a page and asking for the next keeps the loop invariant, or ends the copy by raising when no scroll id is held |
| Transfer.CopyDone | es_operation/excel_to_es.py:451 | an empty page ends the copy normally, with every page handed over |
| Transfer.EmptyFirstPage | es_operation/excel_to_es.py:450-451 | an empty first page copies nothing |
| Transfer.CopyFromHealthy | es_operation/excel_to_es.py:450-454 | from any page on, a healthy source hands over every page up to the first empty one and never raises |
| Transfer.CopiedHealthy | es_operation/excel_to_es.py:450-454 | with a healthy source the target receives exactly the pages before the first empty one, in order, and the copy does not raise |
| Transfer.DumpHealthy | es_operation/excel_to_es.py:450-454 | with a healthy source and a bulk helper that always returns, the target keeps its documents and gains exactly the accepted records of the source's pages, in order, under consecutive fresh ids |
| Transfer.FirstPageWithoutCursor | es_operation/excel_to_es.py:204-214 | a first page with hits but no `_scroll_id` is copied, and the next request raises |
| Transfer.Dump | es_operation/excel_to_es.py:428-454 | the target's `bulk_index_data` calls are the copied pages in order; its bulk requests are theirs, and its index state is what those calls produce; `crashed` tells whether a request raised; the source ends with the scroll id and the scroll requests of `ScrollLog`, and its documents are unchanged; the query gets `size` 10000 |
| Transfer.CopyPages | es_operation/excel_to_es.py:451-453 | the loop hands every remaining page to the target and leaves the source with the scroll id and requests of `ScrollLog`; it raises exactly when the copy does |
| Transfer.CopyPage | es_operation/excel_to_es.py:452-453 | one pass of the loop: the page goes to the target as one `bulk_index_data` call, with its requests and their effect on the index, and the next page is requested |
| Transfer.Deliver | es_operation/excel_to_es.py:452 | one `bulk_index_data` call of the target: the call, its requests and its effect on the index are added to what the target has received |

## Left out

- The Elasticsearch client, HTTP, JSON encoding and decoding, URLs, `print`
  and `time.sleep` are not modelled. The index is a map from id to document.
  The bulk helper's answers and the scroll replies are parameters.
- The bulk helper's own chunking, and the partial effects of a request that
  raises after some documents were indexed, are not modelled. A request
  either indexes all of its actions or none of them.
- ElasticObj.constructor: the property list is given. `get_mapping` and
  `get_property_list` read it from the server, and the model does not.
- Elastic.ElasticObj.SearchBySingleField: returns every matching document.
  The engine's default of 10 hits per search, which limits what
  `update_insert` and `del_by_single_field` delete, is not modelled.
  `match` is read as equality of the field's value.
- Elastic.Searchable: the only query the engine is modelled as refusing is
  a `match` on `None`. Other refusals are not modelled.
- Elastic.ElasticObj.DeleteById: returns false for a missing id, where the
  client raises `NotFoundError`. The index is modelled as refreshed after
  every operation, so a search never returns a document already deleted.
  On a real engine a delete becomes visible to search only after a refresh.
  With old documents replaced and two rows sharing a key, the second row can
  find a document the first row deleted; `delete_by_id` then raises and
  `update_insert` stops. Upsert.ReconcileReplaceAdded inserts both rows.
- Elastic.ElasticObj.ScrollSearch: every hit carries `_id` and `_source`.
  In the source a hit without one raises `KeyError` inside the `try`, after
  the earlier hits were stored, so the page returned holds only those
  earlier hits (none when `_source` is disabled on the index). The model
  has no such partial page.
- Elastic.ElasticObj.ScrollSearch: a decoded body without `hits.hits`
  (a `KeyError` caught by the `try`) has no case of its own. It is
  represented as a body reporting an error: its `_scroll_id` is still
  taken, and the page is empty.
- Upsert.UpdateInsert: the client is passed in. The source builds a fresh
  `ElasticObj` for the index on each call. The same holds for
  `DelBySingleField`, `UpdateInsertFromExcel` and `Dump`.
- Loader.ConvertDataType: every type-`d` cell is a date and time. openpyxl
  also gives type `d` to `datetime.time` and `timedelta` cells. A time is
  written with a 1900-01-01 date, and a `timedelta` has no `strftime`, so
  line 278 raises `AttributeError`. Neither is modelled.
- Cells.Value: numbers are integers. A non-integral cell, which openpyxl
  reads as a `float` such as 3.5, is not represented. No modelled operation
  computes with cell values.
- Loader.RowDictKeys: values are compared as the model's `Value`s. Python
  dict keys and `in` treat `1`, `1.0` and `True` as the same key, so a
  header row `[1, TRUE]` gives one field in the source and two in the
  model; the property check of `is_property` compares keys the same way.
- Loader.Load: the sheet has at least one row and a fixed width, where an
  empty sheet makes the source raise `IndexError`. Cell types other than
  dates (formulas, errors) are passed through as values.
- Cells.FormatDateRoundTrip: the year is written with four digits. Some
  platforms' `strftime` does not pad years below 1000.
- Excel.UidValues: `create_uid` and `create_num_uid` are read from the
  clock and `uuid1`. They are oracles indexed by row and position, so
  uniqueness is not modelled.
- Excel.BaseName: splits the path on `/` only, as `os.path.basename` does on
  POSIX. On Windows it also splits on `\`.
- Excel.ReplaceAllAbsent: `str.replace` is modelled for non-empty patterns
  only. The source only uses `.xlsx`.
- Transfer.Dump: the replies are finite. Past the last one the source
  answers with an empty page, so the copy ends.
- The following are not part of this model:
  - `count_by_dict`, `delete_by_query` and `search_by_dict` (the last
    appears only through `search_by_single_field`);
  - `big_insert_from_excel`, `del_from_excel`, `Template`, `__threads__`
    and `__main__`.
