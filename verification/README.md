# xml-parser core, in Dafny

A model of the data core of `xml-parser`, an interactive command-line tool. The tool loads
one XML document into memory and queries it with dotted paths. It keeps named "views" of
query results, splits and combines them, and answers `help` for its small command grammar.
The model covers four source files:

- `src/app/services/xml-data.ts`, the document store (`XmlDataService`, file `xml_data.dfy`).
  It holds at most one parsed tree. `doQuery` splits a path on `.` and looks up one field
  name at a time. Looking a field up in a list maps the lookup over the elements, flattens
  one level and drops falsy results. The walk stops as soon as the result is falsy. An
  undefined, falsy or empty-list outcome is `QUERY_NOT_FOUND_DATA`.
- `src/app/services/views.ts`, the view store (`ViewsService`, file `views.dfy`). It is a
  table from names to truthy values, listed in insertion order. `splitViewData` splits a
  string view on the separator as it is. A list view keeps its strings, splits each one,
  flattens, trims and drops empty pieces.
- `src/app/controler/info-operations.ts`, the controller (`Controller`, file
  `info_operations.dfy`). Each operation checks its arguments in the source's order and then
  delegates to the two stores. `appHelp` walks the command grammar.
- `src/app/entities/command-help.ts`, the command grammar (`CommandHelp`, file
  `command_help.dfy`): `load xml file` with the arguments `path` and `force`, and `HelpNode`.

Three supporting modules give the JavaScript semantics the core relies on:

- `JsValues` (`js_values.dfy`): the untyped values as a closed sum type, truthiness, and
  property lookup on objects.
- `JsStrings` (`js_strings.dfy`): `split`, `join`, `trim` and `includes`.
- `Entities` (`entities.dfy`): the response codes, and `Response`/`ErrorApp` as the two cases
  `Success` and `Failure` of one datatype.

The two stores are classes whose methods update their fields, as in the source. `doQuery`
and `appHelp` keep their loops, and each is proved equal to a specification function
(`Query`, `Help`). The properties are proved about those functions:

- the query projects a field across lists;
- splitting and joining back gives the string, for every separator; joining and splitting back gives the pieces, for a one-character separator that no piece contains;
- a list split is idempotent for a non-empty separator;
- `appHelp` succeeds for exactly four word lists.

The file reader, the XML parser and the view store's `saveView`, `saveAllViews` and `mixViews`
are passed to the operations that call them as function parameters. The results those
collaborators hand back are given, not modelled.

## Model

| member | source | states |
|---|---|---|
| `JsValues.Get` | src/app/services/xml-data.ts:18 | `obj[key]`: undefined when no field has the key; any other answer is the value of a field with that key |
| `JsValues.GetFirstMatch` | src/app/services/xml-data.ts:18 | when some field has the key, `obj[key]` is the value of the first such field |
| `JsValues.FalsyText` | src/app/services/views.ts:8 | a falsy value prints as nothing in a template exactly when it is the empty string |
| `JsStrings.ContainsMiddle` | src/app/services/views.ts:27 | a message built around a name contains the name (what the tests of the error messages look for) |
| `JsStrings.Split` | src/app/services/views.ts:49 | with an empty separator, one piece per character (which piece is which: `SplitIntoCharacters`); with a non-empty separator, at least one piece (which pieces, leftmost match first: `SplitAtFirstOccurrence`) |
| `JsStrings.SplitIntoCharacters` | src/app/services/views.ts:49 | with the empty separator, the i-th piece is the one-character string holding the i-th character |
| `JsStrings.Join` | src/app/controler/info-operations.ts:55 | joining one piece gives that piece |
| `JsStrings.SplitJoinRoundTrip` | src/app/services/views.ts:61 | `s.split(sep).join(sep) == s` for every string and separator, the empty one included |
| `JsStrings.SplitWithoutSeparator` | src/app/services/views.ts:61 | a string without the separator splits into itself |
| `JsStrings.SplitAtFirstOccurrence` | src/app/services/views.ts:49 | leftmost matching: for any non-empty separator whose first occurrence in `a + sep + b` is the one after `a`, the first piece is `a` and the rest are the pieces of `b` |
| `JsStrings.SplitAtFirst` | src/app/services/views.ts:61 | with a one-character separator, the first piece of `a + sep + b` is `a` and the rest are the pieces of `b` |
| `JsStrings.JoinSplitRoundTrip` | src/app/services/views.ts:61 | pieces free of a one-character separator, joined with it and split again, come back unchanged |
| `JsStrings.Trim` | src/app/services/views.ts:52 | `trim` leaves no whitespace at either end and removes only whitespace, from the two ends |
| `JsStrings.TrimIdempotent` | src/app/services/views.ts:52 | trimming twice is trimming once |
| `CommandHelp.Child` | src/app/controler/info-operations.ts:37 | looking a word up in a level finds it exactly when an entry has that word, and returns that entry |
| `CommandHelp.OnlyLoadAtTop` | src/app/entities/command-help.ts:1-28 | the only top-level command is `load` |
| `CommandHelp.LoadXmlFileChain` | src/app/entities/command-help.ts:1-28 | `load`, `xml` and `file` are commands with further words; after `file` come the arguments `path` then `force` |
| `CommandHelp.ArgumentsAreLeaves` | src/app/entities/command-help.ts:1-28 | in the whole tree, an entry is an argument exactly when it has no sub-commands |
| `CommandHelp.HelpNodeDefaultsToNotArgument` | src/app/entities/command-help.ts:33 | a help line made without the flag is not an argument |
| `XmlDataService.Flat` | src/app/services/xml-data.ts:14 | an element of the flattened list is exactly an element spread from some input element |
| `XmlDataService.Compact` | src/app/services/xml-data.ts:15 | the filter keeps exactly the truthy elements and never adds any |
| `XmlDataService.FlatAppend` | src/app/services/xml-data.ts:14 | flattening distributes over concatenation, so order is kept |
| `XmlDataService.CompactAppend` | src/app/services/xml-data.ts:15 | filtering distributes over concatenation, so order is kept |
| `XmlDataService.SearchData` | src/app/services/xml-data.ts:9-19 | on an object, the field's value; on a list, a list of truthy values only; on anything else, undefined |
| `XmlDataService.SearchListCons` | src/app/services/xml-data.ts:11-15 | searching a list is searching its head (spread, truthy part) followed by searching its tail |
| `XmlDataService.SearchListMembers` | src/app/services/xml-data.ts:11-15 | a value is found in a list exactly when it is truthy and comes from searching one of the elements |
| `XmlDataService.SearchAbsent` | src/app/services/xml-data.ts:9-19 | a field name that occurs nowhere gives undefined on an object and an empty list on a list |
| `XmlDataService.Walk` | src/app/services/xml-data.ts:57-59 | the loop stops on a falsy result and leaves it as it is |
| `XmlDataService.WalkAppend` | src/app/services/xml-data.ts:57-59 | walking `a + b` is walking `a` and then `b` |
| `XmlDataService.WalkSnoc` | src/app/services/xml-data.ts:57-59 | one more field name looks it up in what the path so far found, if that is truthy |
| `XmlDataService.Query` | src/app/services/xml-data.ts:51-66 | success exactly when the walk ends truthy and not an empty list, with that value as payload; otherwise `QUERY_NOT_FOUND_DATA` whose message quotes the path; no document means failure |
| `XmlDataService.QueryMissingLastField` | src/app/services/xml-data.ts:61-63 | a path whose last field is missing everywhere below the rest of the path fails with `QUERY_NOT_FOUND_DATA` |
| `XmlDataService.ExamplePathSplits` | src/app/services/xml-data.ts:52 | `node.children.node3.children.name` splits into its five field names |
| `XmlDataService.ExampleLookups` | src/test/services/xml-data.test.ts:163-249 | field lookups inside the fixture document: `node3`, `children`, `name` |
| `XmlDataService.ExampleTopLookups` | src/test/services/xml-data.test.ts:163-249 | `node` then `children` of the fixture lead to its two-element list |
| `XmlDataService.ExampleWalkHead` | src/test/services/xml-data.test.ts:163-249 | the first two field names walk from the fixture document to its `children` list |
| `XmlDataService.ExampleWalkTail` | src/test/services/xml-data.test.ts:163-249 | `node3.children.name` on that list gives one `name` per element |
| `XmlDataService.QueryProjectsAcrossLists` | src/test/services/xml-data.test.ts:300-309 | the query `node.children.node3.children.name` over the fixture succeeds with one name per list element |
| `XmlDataService.LoadResult` | src/app/services/xml-data.ts:21-41 | empty path gives `INVALID_PATH_ERROR`; a reader error is returned as it is; a parse error gives `XML_PARSE_ERROR` quoting the text, with the thrown stack or `XmlData.loadDAta`; a non-empty path, a successful read and a parsed tree give `Success` with "The xmlData was parsed successfully" and that tree; any success comes from such a parse |
| `XmlDataService.XmlData.constructor` | src/app/services/xml-data.ts:7 | a new store holds no document |
| `XmlDataService.XmlData.LoadData` | src/app/services/xml-data.ts:21-41 | answers `LoadResult`; on success the parsed tree replaces the document; every error leaves it unchanged; `isThereData` then reports whether the document is truthy |
| `XmlDataService.XmlData.ClearData` | src/app/services/xml-data.ts:43-45 | no document afterwards, and `isThereData` is false |
| `XmlDataService.XmlData.DoQuery` | src/app/services/xml-data.ts:51-66 | the loop answers exactly `Query` of the current document |
| `ViewsService.StringItemsMembers` | src/app/services/views.ts:44 | the strings kept are exactly those of the string elements |
| `ViewsService.SplitEachAppend` | src/app/services/views.ts:45-50 | the split stage works element by element: on `a + b` it is the stage on `a`, then on `b` |
| `ViewsService.Concat` | src/app/services/views.ts:51 | a piece is in the flattened list exactly when some group holds it |
| `ViewsService.TrimEachAppend` | src/app/services/views.ts:52 | the trim stage works element by element: on `a + b` it is the stage on `a`, then on `b` |
| `ViewsService.NonEmpty` | src/app/services/views.ts:53 | exactly the non-empty pieces are kept |
| `ViewsService.SplitItemsAppend` | src/app/services/views.ts:43-53 | the list pipeline works element by element: splitting `a + b` is splitting `a`, then `b` |
| `ViewsService.SplitItemsSingle` | src/app/services/views.ts:43-53 | one string element gives its trimmed non-empty pieces; any other element gives nothing |
| `ViewsService.SplitItemsTrimmed` | src/app/services/views.ts:52-53 | every piece of a list split is non-empty and trimmed |
| `ViewsService.SplitItemsIgnoresNonStrings` | src/app/services/views.ts:44 | a non-string element is dropped without trace |
| `ViewsService.SplitItemsOrigin` | src/app/services/views.ts:43-53 | every piece is the trimmed form of a piece of some string element |
| `ViewsService.SplitPiecesAvoidSeparator` | src/app/services/views.ts:49 | no piece of a split contains the separator |
| `ViewsService.SplitItemsPieces` | src/app/services/views.ts:43-53 | every piece of a list split is non-empty, trimmed and free of the separator |
| `ViewsService.SplitItemsOfPieces` | src/app/services/views.ts:43-53 | a list of clean pieces splits into itself |
| `ViewsService.TrimmedPiecesKept` | src/app/services/views.ts:52-53 | trim and the empty filter leave non-empty trimmed pieces unchanged |
| `ViewsService.SplitJoinedItems` | src/test/services/views.test.ts:234-245 | strings each joined from clean pieces with a one-character separator split into all those pieces, in order (`['test1,test2', 'test3,test4']` gives the four words) |
| `ViewsService.SplitView` | src/app/services/views.ts:30-65 | falsy view gives `VIEW_NOT_FOUND`; neither list nor string gives `VIEW_NOT_SPLITABLE`; a list succeeds exactly when its pipeline leaves a piece, and otherwise fails with `VIEW_NOT_SPLITABLE`; a string is split as it is; every error message names the view |
| `ViewsService.SplitStringJoinsBack` | src/app/services/views.ts:60-62 | splitting a string view succeeds, and its pieces joined back with the separator give the string |
| `ViewsService.SplitListTwice` | src/app/services/views.ts:42-58 | splitting the result of a list split again, by the same non-empty separator, gives the same result: the split is idempotent for every separator `splitViewBy` accepts |
| `ViewsService.Views.constructor` | src/app/services/views.ts:4 | the table starts empty |
| `ViewsService.Views.ViewOf` | src/app/services/views.ts:31-34 | `viewsStored[name]`: undefined for a name not stored; in a valid table every stored name reads a truthy value, so the value read is truthy exactly when the name is stored (what the truthiness tests of `getViewData` and `splitViewData` rely on, as `storeView` stores only truthy data) |
| `ViewsService.Views.StoreView` | src/app/services/views.ts:6-14 | falsy data is refused with `DATA_TO_VIEW_EMPTY` and nothing changes; otherwise the name maps to the data, a new name goes to the end of the listing, a stored name keeps its place, `getViewData` returns the data, and no other name changes |
| `ViewsService.Views.RemoveAllViews` | src/app/services/views.ts:16-18 | the table is empty afterwards |
| `ViewsService.Views.ListViews` | src/app/services/views.ts:20-22 | the names listed are exactly the stored names, each once, in insertion order |
| `ViewsService.Views.GetViewData` | src/app/services/views.ts:24-28 | success exactly when a truthy value is stored under the name, which in a valid table is exactly when the name is stored; the error is `VIEW_NOT_FOUND` naming the view |
| `ViewsService.Views.SplitViewData` | src/app/services/views.ts:30-65 | a name not stored gives `VIEW_NOT_FOUND`; otherwise `SplitView` of the stored value |
| `ViewsService.StoreThenGet` | src/test/services/xml-data.test.ts:333-339 | a stored truthy value is read back under its name |
| `ViewsService.ListInStoreOrder` | src/test/services/views.test.ts:194-201 | two names stored one after the other are listed in that order, and storing the first again does not move it |
| `ViewsService.ListAfterRemoveAll` | src/test/services/views.test.ts:183-192 | after `removeAllViews`, the list is empty and no name is found |
| `Controller.Descend` | src/app/controler/info-operations.ts:36-38 | the walk through the grammar: nothing stays nothing, no words leave the entry reached |
| `Controller.DescendAppend` | src/app/controler/info-operations.ts:36-38 | walking `a + b` is walking `a` and then `b` |
| `Controller.BaseHelpNodes` | src/app/controler/info-operations.ts:24-31 | one help line per top-level command, none marked as an argument |
| `Controller.HelpNodes` | src/app/controler/info-operations.ts:41-50 | one help line per word that may follow, with its text and argument flag, in order |
| `Controller.Help` | src/app/controler/info-operations.ts:17-56 | no words list the top-level commands; otherwise success exactly when the walk ends on an entry with sub-commands, listing them; the error is `INVALID_COMMAND_ERROR` quoting the words |
| `Controller.HelpBase` | src/app/controler/info-operations.ts:23-34 | with no words, the help lists `load` alone, under `Base commands` |
| `Controller.HelpSucceedsExactly` | src/app/controler/info-operations.ts:17-56 | help succeeds for exactly four word lists: none, `load`, `load xml`, `load xml file` |
| `Controller.HelpAfterFile` | src/test/controler/info-operations.test.ts:141-153 | `load xml file` lists `path` then `force`, both arguments |
| `Controller.DescendAsWritten` | src/app/controler/info-operations.ts:36-38 | the loop as written: no words leave the entry as it is; nothing stays nothing; an argument entry followed by a word throws |
| `Controller.ThrowsAfterArgument` | src/app/controler/info-operations.ts:36-38 | over all entries and word lists, the loop as written throws exactly when the corrected walk, after some of the words, stands on an argument with a word still left |
| `Controller.DescendCorrectsThrow` | src/app/controler/info-operations.ts:36-38 | the corrected walk agrees with the walk as written wherever that does not throw, and finds nothing where it throws |
| `Controller.WordAfterArgumentThrows` | src/app/controler/info-operations.ts:36-38 | `load xml file path x` throws in the loop as written, and is `INVALID_COMMAND_ERROR` in the corrected walk |
| `Controller.InfoOperations.constructor` | src/app/controler/info-operations.ts:1-2 | the controller works on the given document store and view store |
| `Controller.InfoOperations.LoadXmlFile` | src/app/controler/info-operations.ts:5-15 | empty path gives `INVALID_PATH_ERROR`; a loaded document without `force` (false by default) gives `DATA_WILL_BE_LOST`; otherwise `loadData`'s answer and effect; errors leave the document unchanged |
| `Controller.InfoOperations.AppHelp` | src/app/controler/info-operations.ts:17-56 | the loops answer exactly `Help` of the words |
| `Controller.InfoOperations.CreateViewNamed` | src/app/controler/info-operations.ts:58-74 | empty query, then empty name, are refused; a failed query is returned as it is; otherwise the query's payload is stored under the name, a new name going to the end of the listing and a stored one keeping its place; errors leave the table unchanged |
| `Controller.InfoOperations.GetAllViews` | src/app/controler/info-operations.ts:76-78 | the stored names, each stored name listed |
| `Controller.InfoOperations.GetOneView` | src/app/controler/info-operations.ts:80-86 | empty name gives `INVALID_NAME_VIEW`; otherwise `getViewData`, found exactly when stored |
| `Controller.InfoOperations.SplitViewBy` | src/app/controler/info-operations.ts:88-104 | empty name, then empty separator, are refused; a failed split is returned as it is; otherwise the pieces are stored under `name_split`, a new name going to the end of the listing and a stored one keeping its place; the view split is never changed |
| `Controller.InfoOperations.SaveOneView` | src/app/controler/info-operations.ts:106-116 | empty name, then empty path, are refused; otherwise the view store's `saveView(path, name)` answers |
| `Controller.InfoOperations.SaveAllViews` | src/app/controler/info-operations.ts:118-130 | empty path is refused; the first result is returned when it is an error; otherwise `Views stores in path` with the path |
| `Controller.InfoOperations.JoinTwoViews` | src/app/controler/info-operations.ts:132-150 | an empty name is refused; a failed mix is returned as it is; a falsy mix gives `DATA_TO_VIEW_EMPTY`; otherwise the mix is stored under `name1_name2_joined`, a new name going to the end of the listing and a stored one keeping its place, and returned |

## Left out

- Reading the file and parsing XML are given to `LoadData` and `LoadXmlFile` as functions. Their results are given, and their behaviour is not part of this model.
- `async`/`await` is not modelled: each promise is taken as its settled value, and a rejected `saveView`/`saveAllViews` promise is not modelled.
- `src/app/datasource/files.ts` is not part of this model.
- `saveView`, `saveAllViews` and `mixViews` are called by the controller but are not defined in the `views.ts` this model follows. The controller takes them as function parameters, so the deep-equality merge of two views is not modelled.
- `JsStrings.Split`: with an empty separator it gives one piece per Unicode scalar value (a Dafny `char`). JavaScript gives one piece per UTF-16 code unit, so a character outside the Basic Multilingual Plane gives two pieces there and one here. `splitViewData` accepts the empty separator; only `splitViewBy` refuses it.
- `JsValues.Get`: its own contract does not say which field answers when several have the key. `JsValues.GetFirstMatch` states it: the first one.
- Numbers are integers. Floating point, `NaN` and its falsiness are not modelled.
- The `Arr`/`Obj` sum type closes JavaScript's `any`. A few lookups give `undefined` here and may give something else in JavaScript:
  - properties of primitives (`'abc'['length']`);
  - properties inherited from `Object.prototype` (`toString`, also as a view name or command word);
  - `searchData` on a `null` or `undefined` list element, which throws in JavaScript.
- `Object.keys` lists integer-like keys first in JavaScript. `Views.ListViews` lists every name in insertion order.
- The call stack captured by `new Error().stack` is the opaque `CallStack`.
- The `type` tag passed as a fourth argument to `HelpNode` at `src/app/controler/info-operations.ts:47` is not a field. `HelpNode` has no such parameter, and no grammar entry has the tag.
- The prompt loop of `src/app/index.ts` is outside the core.
- `src/app/entities/app-responses.ts` defines only four codes: `OK` and three codes of the file module. The four core files use `OK` and eleven other codes that file does not define. `Entities.Code` holds those twelve and five codes the core only passes on: `XML_FILE_NOT_FOUND`, `XML_READ_ERROR`, `WRITE_FILE_ERROR` and `DATA_FILE_EMPTY` of the file module, and `VIEW_STORE_EMPTY` of the view store's `saveAllViews`.
- The test at `src/test/controler/info-operations.test.ts:115-121` expects `appHelp([])` to fail with `<empty>` in the message. The code at `src/app/controler/info-operations.ts:23-34` answers `Base commands` with the top-level list, and `Controller.Help` follows the code.
- `Controller.Help`: its contract deliberately differs from the source on one input shape: a word after an argument entry. The source throws a `TypeError` there, and `Controller.Help` answers `INVALID_COMMAND_ERROR` instead (see Findings).

## Findings

| source | as written | input that shows it | evidently intended | confidence | as-written member | corrected member |
|---|---|---|---|---|---|---|
| src/app/controler/info-operations.ts:36-38 | the loop reads `command?.nodes[word]` while `command` is truthy; an argument entry has no `nodes`, so the next word is looked up in `undefined` and throws a `TypeError` | `appHelp(['load', 'xml', 'file', 'path', 'x'])` | an `INVALID_COMMAND_ERROR` for a word that follows an argument, like any other unknown word | not executed | `Controller.WordAfterArgumentThrows`, `Controller.ThrowsAfterArgument` | `Controller.DescendCorrectsThrow` |
