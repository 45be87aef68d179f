# Response and source-text validation of the pharmacy REST test suite

The suite calls eighteen pharmacy endpoints through `rest.ApiUtil`. Each endpoint method
sends a request and pulls a few values out of the JSON answer. It returns them in a
`CustomResponse`. `testcases.TestCodeValidator` then does two things:

- `validateResponseFields` judges that response by endpoint name.
- `validateTestMethodFromFile` / `fetchBody` check that a test method declared in a Java
  file calls every required keyword.

This project models three parts of that code:

- **Extraction.** What each of the eighteen ApiUtil endpoint methods extracts from a
  response document, once the request is done. This includes the exception it raises
  when a node it dereferences is missing.
- **Field validation.** All eighteen cases and the default of `validateResponseFields`.
  It is modelled as imperative methods, one per kind of check. Each is proved equal to a
  declarative verdict. The verdict of each endpoint is then restated per endpoint in
  plain terms.
- **Source-text scan.** The declaration regex, the line-by-line brace counting of
  `fetchBody`, and the keyword regex loop.

Modules:

| module | models |
|---|---|
| `Wrappers` | `Option` and `Result` |
| `Json` | JSON values as Jackson/GPath hand them to Java. Java `null` and JSON `null` are the same value. Also `toString`, and `Integer.valueOf` on the 32-bit `int` range with the decimal digits of every script that `Character.digit` reads. |
| `ApiUtil` | The extraction of each endpoint, as one strategy table and one interpreter. Also the `CustomResponse` accessors. |
| `FieldValidator` | `validateResponseFields`, with `HashSet` size checks modelled by sets of values. |
| `EndpointRules` | One lemma per endpoint, stating what its verdict means. |
| `Pipeline` | Extraction followed by validation, end to end. |
| `SourceScan` | `BufferedReader.readLine`, `fetchBody`, the declaration regex and `\bKEYWORD\s*\(`. |

The Java exceptions `NullPointerException` and `ClassCastException` are the `Failure`
values of an extraction. `validateResponseFields` is modelled only on responses it can
walk without an exception. The predicate `Shaped` states that condition for the values the
model has. The first column of a list check must be non-null. The other columns of its rows
must be non-null and at least as long, but only when the first column is non-empty, since
the loop over the first column touches them only then. Every column handed to
`new HashSet<>` or to `isEmpty` must be non-null, even one whose set is never used. A
record list must hold only maps, and the consumption object must exist.

## Model

| member | source | states |
|---|---|---|
| Json.ParseInteger | src/test/java/testcases/TestCodeValidator.java:556-563 | `Integer.valueOf` on a text: a success is in the 32-bit range, and it is the signed decimal value of a non-empty text left once an optional ASCII sign is dropped |
| Json.ParseIntegerAccepts | src/test/java/testcases/TestCodeValidator.java:556-563 | `Integer.valueOf` succeeds exactly on an optional ASCII sign followed by a non-empty run of decimal digits, of any script `Character.digit` knows, whose signed value fits in 32 bits |
| Json.SignAloneFails | src/test/java/testcases/TestCodeValidator.java:559-562 | the empty text and a lone sign do not parse |
| Json.NonDigitFails | src/test/java/testcases/TestCodeValidator.java:559-562 | any character after the optional sign that is no digit makes the parse fail |
| Json.TrailingNonDigitFails | src/test/java/testcases/TestCodeValidator.java:559-562 | a text ending in a character that is neither a digit nor a sign does not parse, whatever precedes it |
| Json.TrailingLetterFails | src/test/java/testcases/TestCodeValidator.java:559-562 | a text ending in the letter `a`, such as "12a", does not parse |
| Json.OutsideEveryRun | src/test/java/testcases/TestCodeValidator.java:559 | a character lying in none of the runs of decimal digits is not read as a digit |
| Json.LetterIsNoDigit | src/test/java/testcases/TestCodeValidator.java:559 | the letter `a` is not read as a digit |
| Json.DigitFrom | src/test/java/testcases/TestCodeValidator.java:559 | `Character.digit(c, 10)`: a digit read is below ten, and an ASCII digit reads as its usual value |
| Json.DigitInRun | src/test/java/testcases/TestCodeValidator.java:559 | a digit read is the character's distance from the zero of one of the runs of ten decimal digits |
| Json.DecimalValue | src/test/java/testcases/TestCodeValidator.java:559 | the digits of a text read left to right in base ten, whatever script each digit is in; on ASCII digits this is the usual decimal value |
| Json.DecimalValueDefined | src/test/java/testcases/TestCodeValidator.java:559 | a text has a decimal value exactly when every one of its characters is a digit |
| Json.DecimalDigitOfEveryScript | src/test/java/testcases/TestCodeValidator.java:559 | every character in any of the decimal-digit runs of the Basic Multilingual Plane is accepted as a digit |
| Json.ArabicIndicDigitsRead | src/test/java/testcases/TestCodeValidator.java:559 | Arabic-Indic one and two read as twelve |
| Json.Text | src/test/java/testcases/TestCodeValidator.java:308 | `toString` of a value: a string is its own text, a number starts with a digit or a minus sign, a list or map starts with a bracket |
| Json.GetString | src/main/java/rest/ApiUtil.java:37 | `jsonPath().getString(key)`: null exactly when the node is null or missing, and a string node's own text otherwise |
| Json.NatText | src/test/java/testcases/TestCodeValidator.java:308 | `toString` of a natural number is a non-empty run of decimal digits |
| Json.NatTextValue | src/test/java/testcases/TestCodeValidator.java:308 | reading back the digits of `toString(n)` gives `n` |
| Json.IntegerTextRoundTrip | src/test/java/testcases/TestCodeValidator.java:567 | `Integer.valueOf(n.toString())` gives `n` back for every 32-bit `n`, and fails for every integer outside that range |
| Json.IntTextInjective | src/test/java/testcases/TestCodeValidator.java:308 | two integers with the same `toString` are equal |
| Json.NumberTextMatches | src/test/java/testcases/TestCodeValidator.java:334 | a JSON number's `toString` equals an integer's text exactly when the two numbers are equal |
| ApiUtil.EndpointStrategy | src/main/java/rest/ApiUtil.java:37-614 | the extraction of each endpoint method, as paths and keys: one entry per method name, the requisition list read under the key "RequistionNo" as written |
| ApiUtil.Extract | src/main/java/rest/ApiUtil.java:36-45 | after the request: a successful extraction carries the answer's status code and `Status` text, and a payload of the shape its strategy produces, one column or value per key |
| ApiUtil.NewCustomResponse | src/main/java/rest/ApiUtil.java:45 | `new CustomResponse(...)`: the document, code and status are kept, and each argument lands in the accessor the validator reads it through, every other accessor answering null |
| ApiUtil.Project | src/main/java/rest/ApiUtil.java:102-103 | `results.stream().map(r -> r.get(key))`: one entry per record, entry `i` being record `i`'s value under the key, null when absent |
| ApiUtil.ProjectAll | src/main/java/rest/ApiUtil.java:102-109 | one column per key, column `k` being the projection of the records on key `k` |
| ApiUtil.ReadFields | src/main/java/rest/ApiUtil.java:206-210 | `results.get(key)` for each key of a scalar endpoint, in key order |
| ApiUtil.PathValues | src/main/java/rest/ApiUtil.java:72-74 | `jsonPath().get("Results.<key>")` for each key, in key order |
| ApiUtil.ElementFault | src/main/java/rest/ApiUtil.java:102-103 | the stream over a record list raises nothing exactly when every element is a map |
| ApiUtil.ListField | src/main/java/rest/ApiUtil.java:39-41 | `getList("Results.<key>")` on a `Results` object: it succeeds exactly when the value under the key is null or a list, giving no list for null and that list otherwise |
| ApiUtil.ListFields | src/main/java/rest/ApiUtil.java:39-41 | the three `getList` calls in turn: they all succeed exactly when each key's read succeeds, giving one column per key, column `k` being key `k`'s read |
| ApiUtil.SpreadColumnsRead | src/main/java/rest/ApiUtil.java:39-41 | the stock extraction without `Results` gives null columns; over a `Results` list one projected column per key; over a `Results` object the list under each key, failing exactly when one of those values is neither null nor a list; and on a scalar `Results` it raises `ClassCastException` |
| ApiUtil.NullLists | src/main/java/rest/ApiUtil.java:40-42 | `getList("Results.<key>")` without a `Results` node gives a null list per key |
| ApiUtil.RecordColumnsAreParallel | src/main/java/rest/ApiUtil.java:100-110 | a successful list extraction reads a list at the path, and every column has one entry per record, entry `i` taken from record `i` |
| ApiUtil.MissingListNodeThrows | src/main/java/rest/ApiUtil.java:102-103 | a list endpoint whose list node is missing throws `NullPointerException` rather than returning empty lists |
| ApiUtil.MissingObjectNodeThrows | src/main/java/rest/ApiUtil.java:206-210 | a scalar endpoint whose `Results` object is missing throws `NullPointerException` |
| ApiUtil.PathFieldsNeverThrow | src/main/java/rest/ApiUtil.java:69-76 | the main-store extraction always succeeds: with no `Results` every field is null, and on a `Results` object every field is that object's value |
| ApiUtil.ObjectFieldsReadDirectly | src/main/java/rest/ApiUtil.java:234-241 | once the object at the path exists, a scalar endpoint returns exactly its values under the keys |
| ApiUtil.ProvisionalItemsPassThrough | src/main/java/rest/ApiUtil.java:466-470 | the provisional-items list reaches the response unchanged |
| FieldValidator.CheckFor | src/test/java/testcases/TestCodeValidator.java:103-691 | the table of checks has an entry exactly for the eighteen method names the switch has a case for |
| FieldValidator.ElementSetMembers | src/test/java/testcases/TestCodeValidator.java:185-186 | `new HashSet<>(list)` holds exactly the list's elements |
| FieldValidator.SetSizeDetectsDuplicates | src/test/java/testcases/TestCodeValidator.java:185-191 | the set of a list is never larger than the list, and is as large exactly when no two entries are equal |
| FieldValidator.RepeatedIdShrinksSet | src/test/java/testcases/TestCodeValidator.java:660-664 | a repeated id leaves the hash set smaller than the list, so the list counts as repeating |
| FieldValidator.DistinctIdsKeepSize | src/test/java/testcases/TestCodeValidator.java:660-664 | distinct ids keep the hash set as large as the list |
| FieldValidator.NullsCollapse | src/test/java/testcases/TestCodeValidator.java:660-664 | two nulls are one element of the hash set, so two missing ids count as a repetition |
| FieldValidator.ValidateResponseFields | src/test/java/testcases/TestCodeValidator.java:101-694 | the result is the declarative verdict of the named case, false for an unknown name |
| FieldValidator.CheckStockRecords | src/test/java/testcases/TestCodeValidator.java:105-131 | false on a missing or empty `Results`; otherwise true exactly when every record has every stock key and `Status` is "OK" |
| FieldValidator.CheckNonNullFields | src/test/java/testcases/TestCodeValidator.java:283-312 | true exactly when no listed field is null and a pinned field, when present, prints as its expected text |
| FieldValidator.CheckParallelColumns | src/test/java/testcases/TestCodeValidator.java:153-194 | true exactly when every row of every column obeys its rule up to the first column's length, the unique columns hold no repetition, and the required columns are non-empty |
| FieldValidator.CheckConsumptionInfo | src/test/java/testcases/TestCodeValidator.java:236-281 | true exactly when the consumption header has every header key and its item list is present, non-empty, and every item has every item key |
| FieldValidator.PatientIdCheck | src/test/java/testcases/TestCodeValidator.java:547-570 | the loop body for one patient id keeps the verdict exactly when the id is non-null and is, or parses as, a 32-bit integer |
| FieldValidator.CheckProvisionalItems | src/test/java/testcases/TestCodeValidator.java:539-580 | true exactly when the list is non-empty and every item's patient id is non-null and is, or parses as, a 32-bit integer |
| EndpointRules.UnknownEndpointFails | src/test/java/testcases/TestCodeValidator.java:689-691 | any other method name is rejected |
| EndpointRules.AllStocksVerdict | src/test/java/testcases/TestCodeValidator.java:105-131 | `getAllStocks` passes exactly when `Results` is a non-empty list of records with all five stock keys and `Status` is "OK" |
| EndpointRules.MainStoreVerdict | src/test/java/testcases/TestCodeValidator.java:133-151 | `getMainStore` passes exactly when store id, category and active flag are all non-null |
| EndpointRules.RequisitionVerdict | src/test/java/testcases/TestCodeValidator.java:153-194 | the requisition list passes exactly when no number, status or id is null and no id repeats |
| EndpointRules.PatientConsumptionsVerdict | src/test/java/testcases/TestCodeValidator.java:196-234 | patient consumptions pass exactly when no id, hospital number or visit id is null, and all three lists are non-empty; no uniqueness is demanded |
| EndpointRules.ConsumptionInfoVerdict | src/test/java/testcases/TestCodeValidator.java:236-281 | consumption info passes exactly when the header has its keys and there is a non-empty item list whose items all have theirs |
| EndpointRules.BillingSchemeVerdict | src/test/java/testcases/TestCodeValidator.java:283-312 | a billing scheme passes exactly when code, name and id are non-null and the id prints as "4" |
| EndpointRules.BillingSchemeNumericId | src/test/java/testcases/TestCodeValidator.java:308-311 | with a numeric scheme id, the scheme passes only when that id is 4 |
| EndpointRules.BillingSummaryVerdict | src/test/java/testcases/TestCodeValidator.java:314-338 | a billing summary passes exactly when patient id and total due are non-null and the id prints as "114" |
| EndpointRules.BillingSummaryNumericId | src/test/java/testcases/TestCodeValidator.java:334-337 | with a numeric patient id, the summary passes only when that id is 114 |
| EndpointRules.ConsumptionsListVerdict | src/test/java/testcases/TestCodeValidator.java:340-371 | a consumptions list passes exactly when no id, receipt number or amount is null and no consumption id repeats |
| EndpointRules.ReturnConsumptionsVerdict | src/test/java/testcases/TestCodeValidator.java:373-404 | a return list passes exactly when no receipt number, hospital number or patient id is null and no receipt number repeats |
| EndpointRules.DischargedPatientsVerdict | src/test/java/testcases/TestCodeValidator.java:406-436 | discharged patients pass exactly when no visit code, visit id or patient id is null and no visit id repeats |
| EndpointRules.AdmittedPatientsVerdict | src/test/java/testcases/TestCodeValidator.java:438-473 | admitted patients pass exactly when ids are non-null, no discharge date is set, and neither patient ids nor visit ids repeat |
| EndpointRules.IpdPatientSearchVerdict | src/test/java/testcases/TestCodeValidator.java:475-505 | an inpatient search passes exactly when no id or code is null and neither repeats |
| EndpointRules.ProvisionalInfoVerdict | src/test/java/testcases/TestCodeValidator.java:507-537 | provisional info passes exactly when no id or code is null and neither ids nor codes repeat |
| EndpointRules.ProvisionalItemsVerdict | src/test/java/testcases/TestCodeValidator.java:539-580 | provisional items pass exactly when the list is non-empty and every patient id is present and readable as a 32-bit integer |
| EndpointRules.ProvisionalNumericId | src/test/java/testcases/TestCodeValidator.java:554-570 | a numeric patient id is accepted exactly when it fits in 32 bits: the self-comparison never rejects one |
| EndpointRules.InvoicesVerdict | src/test/java/testcases/TestCodeValidator.java:582-600 | invoices pass exactly when no number or code is null, with no uniqueness demanded |
| EndpointRules.NoInvoicesPass | src/test/java/testcases/TestCodeValidator.java:582-600 | an empty invoice list passes and raises nothing, whatever the code column holds |
| EndpointRules.ProviderListVerdict | src/test/java/testcases/TestCodeValidator.java:602-632 | providers pass exactly when no id or name is null and neither ids nor names repeat |
| EndpointRules.UsersListVerdict | src/test/java/testcases/TestCodeValidator.java:634-671 | users pass exactly when no id, short name or department is null and neither ids nor short names repeat |
| EndpointRules.UsersListAllowsSharedDepartment | src/test/java/testcases/TestCodeValidator.java:660-668 | two users may share a department: the department set is built but never compared |
| EndpointRules.NullDepartmentsThrow | src/test/java/testcases/TestCodeValidator.java:660-664 | a null department list makes the users check throw, although its set is never compared |
| EndpointRules.FiscalYearVerdict | src/test/java/testcases/TestCodeValidator.java:673-687 | the fiscal year passes exactly when its id and name are non-null |
| Pipeline.ListResponsesAligned | src/main/java/rest/ApiUtil.java:100-110 | every successful list extraction yields a response with equally long columns, which the validator walks without an exception |
| Pipeline.EndpointTablesAgree | src/main/java/rest/ApiUtil.java:37-614 | ApiUtil has an endpoint method for exactly the names the validator has a case for |
| Pipeline.AllStocksScenario | src/main/java/rest/ApiUtil.java:37-45 | one complete stock record with status "OK" extracts to one-entry columns and passes |
| Pipeline.BillingSummaryScenario | src/main/java/rest/ApiUtil.java:234-241 | a billing summary for patient 115 extracts id and total due and fails validation |
| Pipeline.MainStoreWithoutResults | src/main/java/rest/ApiUtil.java:69-76 | a main-store answer without `Results` raises nothing, gives null fields, and fails validation |
| Pipeline.AdmissionColumns | src/main/java/rest/ApiUtil.java:367-377 | the three columns projected from two admissions: their ids, their visit ids, and null where a discharge date is absent |
| Pipeline.RecordListExtract | src/main/java/rest/ApiUtil.java:100-110 | a list endpoint whose list node holds only records answers the status code, `Status` and one projected column per key |
| Pipeline.AdmissionsExtract | src/main/java/rest/ApiUtil.java:367-377 | two admissions extract to their ids, with null where a discharge date is absent |
| Pipeline.TwoAdmissionsVerdict | src/test/java/testcases/TestCodeValidator.java:438-473 | two admissions with distinct ids, the first undischarged, pass exactly when the second has no discharge date either |
| Pipeline.AdmissionsScenario | src/test/java/testcases/TestCodeValidator.java:438-473 | two admissions extract to two-entry columns that the check walks without an exception, and they pass exactly when neither carries a discharge date |
| Pipeline.RequisitionKeySpelling | src/main/java/rest/ApiUtil.java:102-103 | the extractor reads the key "RequistionNo"; records without that spelling give a null first column and fail validation |
| SourceScan.SkipSpaces | src/test/java/testcases/TestCodeValidator.java:25-26 | a greedy `\s*` consumes the whole run of whitespace characters |
| SourceScan.LineEnd | src/test/java/testcases/TestCodeValidator.java:65 | the end of a line is the first line terminator, or the end of the text |
| SourceScan.ReadLines | src/test/java/testcases/TestCodeValidator.java:65 | `readLine` until null: no more lines than characters, and no line at all exactly when the text is empty |
| SourceScan.ReadLinesDropTerminators | src/test/java/testcases/TestCodeValidator.java:65 | `readLine` splits at "\n", "\r" and "\r\n" and drops the terminator: no line it returns holds one |
| SourceScan.JoinedCons | src/test/java/testcases/TestCodeValidator.java:82 | appending each line and "\n" in turn is associative over a split of the lines |
| SourceScan.ReadLinesRoundTrip | src/test/java/testcases/TestCodeValidator.java:65-82 | on "\n"-terminated text, joining the lines read with "\n" gives the text back |
| SourceScan.FindSignature | src/test/java/testcases/TestCodeValidator.java:67-71 | the first line carrying one of the three signatures, or the end |
| SourceScan.FindOpen | src/test/java/testcases/TestCodeValidator.java:75-78 | the first line from the signature on that holds "{" |
| SourceScan.FindClose | src/test/java/testcases/TestCodeValidator.java:86-91 | the first line that brings the brace count back to zero |
| SourceScan.ScanStep | src/test/java/testcases/TestCodeValidator.java:74-91 | per line after the signature, the running count moves by the line's braces, the scan stops exactly at the closing line, and capture starts exactly at the first "{" |
| SourceScan.DepthBeforeOpen | src/test/java/testcases/TestCodeValidator.java:75-91 | before the first "{" the brace count is never positive |
| SourceScan.CloseFollowsOpen | src/test/java/testcases/TestCodeValidator.java:75-91 | the method cannot end before its first "{" |
| SourceScan.MethodBody | src/test/java/testcases/TestCodeValidator.java:57-99 | the text `fetchBody` returns: empty when no line has the signature, otherwise ending with a newline |
| SourceScan.FetchBody | src/test/java/testcases/TestCodeValidator.java:57-99 | the text captured is every line from the first "{" after the signature to the line that closes it, each followed by "\n"; empty when there is no signature |
| SourceScan.OneLineMethod | src/test/java/testcases/TestCodeValidator.java:75-91 | a method whose signature line opens and closes it is that line alone |
| SourceScan.DeclaresMethod | src/test/java/testcases/TestCodeValidator.java:25-26 | `public\s+CustomResponse\s+NAME\s*\(.*?\)\s*\{[\s\S]*?}` found in the file: a match needs "public", "CustomResponse" and the name in the text |
| SourceScan.DeclarationFromParts | src/test/java/testcases/TestCodeValidator.java:25-26 | "public", one space and a matching `CustomResponse NAME(...) {...}` make the whole pattern match there |
| SourceScan.DeclarationFound | src/test/java/testcases/TestCodeValidator.java:25-26 | every file ending with `public CustomResponse NAME(params) {body}`, with the parameters on one line and a name that does not start with a space, is found by the pattern |
| SourceScan.HasKeywordCall | src/test/java/testcases/TestCodeValidator.java:40 | `\bKEYWORD\s*\(` found in the body: a match needs the keyword and a "(" in the text |
| SourceScan.ValidateTestMethodFromFile | src/test/java/testcases/TestCodeValidator.java:20-53 | true exactly when the declaration pattern matches the file and the fetched body calls every keyword |
| SourceScan.CallIsFound | src/test/java/testcases/TestCodeValidator.java:40-41 | a keyword after a non-word character, followed by spaces and "(", is found |
| SourceScan.SkipSpacesOver | src/test/java/testcases/TestCodeValidator.java:40 | `\s*` skips exactly a run of spaces put in front of a non-space |
| SourceScan.KeywordInsideWordIsNotFound | src/test/java/testcases/TestCodeValidator.java:40-41 | `\b` rejects a keyword that ends another word: "given" is not called in "forgiven()" |
| SourceScan.MissingSignatureCallsNothing | src/test/java/testcases/TestCodeValidator.java:67-71 | without a signature line the body is empty and holds no keyword call |

## Left out

- HTTP: building and sending requests, authentication, base URL and headers. A response enters the model as its status code and JSON document.
- File I/O: reading the file, its character decoding and the `IOException` path. `validateTestMethodFromFile` takes the file's text, and `fetchBody` takes its lines.
- Diagnostics printed with `System.out.println`. That a failed check does not stop the later ones shows only in those messages; the verdict is the same either way.
- `rest.CustomResponse` is not part of this model. The accessor each constructor argument reaches is taken from how the validator reads it; `ApiUtil.NewCustomResponse` states the assumed mapping.
- `RestAssured_TestCases_PL1.java`, the test driver, is not part of this model.
- Floating-point JSON numbers and `Long` values. Numbers are integers, and Java's `Integer`/`Long` `equals` distinction is not modelled.
- `toString` of a list or a map is modelled by a fixed bracketed text rather than Java's full rendering. It only matters for the pinned ids, which a list never matches.
- GPath on a scalar `Results` node in the main-store extraction is modelled as null.
- Dotted paths are followed through maps only. GPath also spreads a path over a list node, which the model captures only where the endpoints use it: `Results.<key>` for the stock columns and the main-store fields.
- ApiUtil.Extract: when `Results` is a scalar (a string, number or boolean) the stock extraction raises `ClassCastException`; the exception GPath would raise there is not told apart from that one.
- Json.DecimalDigitOfEveryScript: the digit runs are those of recent Unicode versions. An older Java runtime knows fewer runs and would reject a digit from a newer one. Supplementary-plane digits reach `Character.digit` as surrogate halves and are rejected, as in Java.
- Unicode: `\w`, `\b` and `\s` follow the ASCII definitions. Java's `\b` also treats non-ASCII letters and digits as word characters.
- A method name or keyword holding regular-expression metacharacters, or a method name starting with whitespace. Both are pasted into the patterns unquoted; the model treats them as plain text.
- FieldValidator.ValidateResponseFields: requires `Shaped`. Responses on which the Java code throws are excluded rather than modelled as exceptions. These are a null first column, a null or shorter row column once the first is non-empty, a null list given to `new HashSet<>` or `isEmpty`, a non-map record, and a missing consumption object.
- FieldValidator.PatientIdCheck: the `NumberFormatException` of the re-parse at TestCodeValidator.java:567 has no path, since `Json.IntegerTextRoundTrip` shows it cannot happen.
