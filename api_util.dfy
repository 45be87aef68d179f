/**
 * The response-extraction half of ApiUtil: what each endpoint method does with the
 * parsed response once it has arrived. The request itself (headers, authorization,
 * URL, transport) is not modelled; the parsed document and the status code are inputs.
 *
 * The eighteen endpoint methods differ only in the JSON path they read and the keys they
 * project, so they are written as one table, `EndpointStrategy`, and one interpreter, `Extract`.
 */
module ApiUtil {
  import opened Wrappers
  import opened Json

  /** The Java exceptions an extraction can raise on an unexpected document. */
  datatype Failure = NullPointer | ClassCast

  /** How an endpoint method turns the document into `CustomResponse` constructor arguments. */
  datatype Strategy =
      /** `jsonPath().getList("Results.<key>")` for each key, with no stream over the records. */
    | SpreadColumns(keys: seq<string>)
      /** `getList(path)` as a record list, then one `stream().map(r -> r.get(key))` per key. */
    | RecordColumns(path: seq<string>, keys: seq<string>)
      /** `getMap` on the first path step, a `(Map)` cast per further step, then `get(key)` per key. */
    | ObjectFields(path: seq<string>, keys: seq<string>)
      /** `jsonPath().get("Results.<key>")` for each key, with no map in between. */
    | PathFields(keys: seq<string>)
      /** `getList(path)`, handed to the response as it is. */
    | ItemsPassthrough(path: seq<string>)

  /** What the endpoint method extracted besides the status code and status text. */
  datatype Payload =
      /** Parallel columns; `None` is a null list. */
    | Lists(columns: seq<Option<seq<Value>>>)
      /** Single values read from one object. */
    | Fields(values: seq<Value>)
      /** The raw record list; `None` is a null list. */
    | Items(records: Option<seq<Value>>)

  /** The arguments an endpoint method passes to `new CustomResponse(response, statusCode, status, ...)`. */
  datatype Extraction = Extraction(statusCode: int, status: Option<string>, payload: Payload)

  /** The extraction strategy of each endpoint method of ApiUtil; `None` for any other name. */
  function EndpointStrategy(endpoint: string): Option<Strategy> {
    match endpoint
    case "getAllStocks" => Some(SpreadColumns(["ItemId", "ItemName", "GenericName"]))
    case "getMainStore" => Some(PathFields(["StoreId", "Category", "IsActive"]))
    case "getRequisitionByDateRange" =>
      Some(RecordColumns(["Results", "requisitionList"], ["RequistionNo", "RequisitionStatus", "RequisitionId"]))
    case "getPatientConsumptions" =>
      Some(RecordColumns(["Results"], ["PatientId", "HospitalNo", "PatientVisitId"]))
    case "getPatientConsumptionInfoByPatientIdAndVisitId" =>
      Some(ObjectFields(["Results", "PatientConsumption"], ["PatientName", "HospitalNo", "StoreId"]))
    case "getBillingSchemeBySchemeId" => Some(ObjectFields(["Results"], ["SchemeCode", "SchemeName", "SchemeId"]))
    case "getBillingSummaryByPatientId" => Some(ObjectFields(["Results"], ["PatientId", "TotalDue"]))
    case "getConsumptionsListOfAPatientById" =>
      Some(RecordColumns(["Results"], ["PatientConsumptionId", "ConsumptionReceiptNo", "TotalAmount"]))
    case "getReturnConsumptionsList" =>
      Some(RecordColumns(["Results"], ["ConsumptionReturnReceiptNo", "HospitalNo", "PatientId"]))
    case "getDischargedPatients" => Some(RecordColumns(["Results"], ["VisitCode", "PatientVisitId", "PatientId"]))
    case "getAdmittedPatients" => Some(RecordColumns(["Results"], ["PatientId", "VisitId", "DischargeDate"]))
    case "searchIpdPatientByPatientId" => Some(RecordColumns(["Results"], ["PatientId", "PatientCode"]))
    case "getPatientProvisionalInfo" => Some(RecordColumns(["Results"], ["PatientId", "PatientCode"]))
    case "getProvisionalItemsListByPatientIdAndSchemeId" => Some(ItemsPassthrough(["Results", "ProvisionalItems"]))
    case "getInvoicesByDateRange" => Some(RecordColumns(["Results"], ["InvoiceNumber", "InvoiceCode"]))
    case "getProviderList" => Some(RecordColumns(["Results"], ["EmployeeId", "EmployeeName"]))
    case "getUsersList" => Some(RecordColumns(["Results"], ["UserId", "ShortName", "DepartmentName"]))
    case "getCurrentFiscalYearDetails" => Some(ObjectFields(["Results"], ["FiscalYearId", "FiscalYearName"]))
    case _ => None
  }

  /**
   * `records.stream().map(r -> r.get(key)).collect(toList())`, and equally GPath's
   * `Results.<key>` over a list: one entry per record, in record order, each the record's
   * value under `key`, null when the record lacks it. Nothing is dropped or reordered.
   */
  function Project(records: seq<Value>, key: string): (column: seq<Value>)
    ensures |column| == |records|
    ensures forall i :: 0 <= i < |records| ==> column[i] == Lookup(records[i], key)
  {
    if records == [] then [] else [Lookup(records[0], key)] + Project(records[1..], key)
  }

  /** One projected column per key, each a non-null list. */
  function ProjectAll(records: seq<Value>, keys: seq<string>): (columns: seq<Option<seq<Value>>>)
    ensures |columns| == |keys|
    ensures forall k :: 0 <= k < |keys| ==> columns[k] == Some(Project(records, keys[k]))
  {
    if keys == [] then [] else [Some(Project(records, keys[0]))] + ProjectAll(records, keys[1..])
  }

  /** `results.get(key)` for each key, on one map, with no iteration over records. */
  function ReadFields(m: Record, keys: seq<string>): (values: seq<Value>)
    ensures |values| == |keys|
    ensures forall k :: 0 <= k < |keys| ==> values[k] == Get(m, keys[k])
  {
    if keys == [] then [] else [Get(m, keys[0])] + ReadFields(m, keys[1..])
  }

  /**
   * GPath's `node.key`: the value under `key` of an object, the values under `key` of every
   * record of a list (null for a record lacking it), and null on a missing node.
   */
  function PathGet(node: Value, key: string): Value {
    match node
    case Obj(m) => Get(m, key)
    case Arr(items) => Arr(Project(items, key))
    case _ => Null
  }

  /** `jsonPath().get("Results.<key>")` for each key in turn. */
  function PathValues(results: Value, keys: seq<string>): (values: seq<Value>)
    ensures |values| == |keys|
    ensures forall k :: 0 <= k < |keys| ==> values[k] == PathGet(results, keys[k])
  {
    if keys == [] then [] else [PathGet(results, keys[0])] + PathValues(results, keys[1..])
  }

  /**
   * The exception a stream over `items` raises at its first element that is not a map:
   * NullPointerException for a null element, ClassCastException for any other non-map.
   */
  function ElementFault(items: seq<Value>): (fault: Option<Failure>)
    ensures fault.None? <==> forall i :: 0 <= i < |items| ==> items[i].Obj?
  {
    if items == [] then None
    else if items[0].Null? then Some(NullPointer)
    else if !items[0].Obj? then Some(ClassCast)
    else ElementFault(items[1..])
  }

  /** A node used as `List<Map<String, Object>>` and streamed over. */
  function AsRecordList(node: Value): Result<seq<Value>, Failure> {
    match node
    case Null => Failure(NullPointer)
    case Arr(items) =>
      (match ElementFault(items)
       case Some(f) => Failure(f)
       case None => Success(items))
    case _ => Failure(ClassCast)
  }

  /** A node used as `Map<String, Object>` and dereferenced. */
  function AsMap(node: Value): Result<Record, Failure> {
    match node
    case Null => Failure(NullPointer)
    case Obj(m) => Success(m)
    case _ => Failure(ClassCast)
  }

  /**
   * `getMap(path[0])`, then `(Map) current.get(step)` for each later step: every node on the
   * way, the document included, is dereferenced as a map.
   */
  function MapAt(node: Value, path: seq<string>): Result<Record, Failure>
    decreases |path|
  {
    match AsMap(node)
    case Failure(f) => Failure(f)
    case Success(m) => if path == [] then Success(m) else MapAt(Get(m, path[0]), path[1..])
  }

  /** The payload has one column or field per key of the strategy, in the form the strategy reads. */
  predicate Carries(strategy: Strategy, payload: Payload) {
    match strategy
    case SpreadColumns(keys) => payload.Lists? && |payload.columns| == |keys|
    case RecordColumns(_, keys) => payload.Lists? && |payload.columns| == |keys|
    case ObjectFields(_, keys) => payload.Fields? && |payload.values| == |keys|
    case PathFields(keys) => payload.Fields? && |payload.values| == |keys|
    case ItemsPassthrough(_) => payload.Items?
  }

  /** What the endpoint method using `strategy` extracts from the document, or the exception it raises. */
  function Extract(strategy: Strategy, doc: Value, statusCode: int): (r: Result<Extraction, Failure>)
    ensures r.Success? ==> r.value.statusCode == statusCode && r.value.status == GetString(doc, "Status")
    ensures r.Success? ==> Carries(strategy, r.value.payload)
  {
    var status := GetString(doc, "Status");
    match strategy
    case SpreadColumns(keys) =>
      var node := Lookup(doc, "Results");
      if node.Null? then Success(Extraction(statusCode, status, Lists(NullLists(|keys|))))
      else if node.Arr? then Success(Extraction(statusCode, status, Lists(ProjectAll(node.items, keys))))
      else if node.Obj? then
        (match ListFields(node.fields, keys)
         case Failure(f) => Failure(f)
         case Success(columns) => Success(Extraction(statusCode, status, Lists(columns))))
      else Failure(ClassCast)
    case RecordColumns(path, keys) =>
      (match AsRecordList(NodeAt(doc, path))
       case Failure(f) => Failure(f)
       case Success(records) => Success(Extraction(statusCode, status, Lists(ProjectAll(records, keys)))))
    case ObjectFields(path, keys) =>
      (match MapAt(doc, path)
       case Failure(f) => Failure(f)
       case Success(m) => Success(Extraction(statusCode, status, Fields(ReadFields(m, keys)))))
    case PathFields(keys) =>
      Success(Extraction(statusCode, status, Fields(PathValues(Lookup(doc, "Results"), keys))))
    case ItemsPassthrough(path) =>
      var node := NodeAt(doc, path);
      if node.Null? then Success(Extraction(statusCode, status, Items(None)))
      else if node.Arr? then Success(Extraction(statusCode, status, Items(Some(node.items))))
      else Failure(ClassCast)
  }

  /** `n` null lists, what GPath gives for `Results.<key>` when there is no `Results` node. */
  function NullLists(n: nat): (lists: seq<Option<seq<Value>>>)
    ensures |lists| == n && forall k :: 0 <= k < n ==> lists[k].None?
  {
    if n == 0 then [] else NullLists(n - 1) + [None]
  }

  /**
   * GPath's `getList("Results.<key>")` on a `Results` object: the list under `key`, null
   * when the key is missing or null, and ClassCastException when the value is not a list.
   */
  function ListField(m: Record, key: string): (r: Result<Option<seq<Value>>, Failure>)
    ensures r.Success? <==> Get(m, key).Null? || Get(m, key).Arr?
    ensures r.Success? ==> (r.value.None? <==> Get(m, key).Null?)
    ensures r.Success? && r.value.Some? ==> Get(m, key) == Arr(r.value.value)
  {
    match Get(m, key)
    case Null => Success(None)
    case Arr(items) => Success(Some(items))
    case _ => Failure(ClassCast)
  }

  /** `getList` for each key in turn on one `Results` object; the first key that is not a list raises. */
  function ListFields(m: Record, keys: seq<string>): (r: Result<seq<Option<seq<Value>>>, Failure>)
    ensures r.Success? <==> forall k :: 0 <= k < |keys| ==> ListField(m, keys[k]).Success?
    ensures r.Success? ==> |r.value| == |keys|
    ensures r.Success? ==> forall k :: 0 <= k < |keys| ==> ListField(m, keys[k]) == Success(r.value[k])
  {
    if keys == [] then Success([])
    else
      match ListField(m, keys[0])
      case Failure(f) => Failure(f)
      case Success(column) =>
        (match ListFields(m, keys[1..])
         case Failure(f) => Failure(f)
         case Success(rest) => Success([column] + rest))
  }

  /** What the endpoint method `endpoint` of ApiUtil extracts; `None` for a name ApiUtil does not define. */
  function Respond(endpoint: string, doc: Value, statusCode: int): Option<Result<Extraction, Failure>> {
    match EndpointStrategy(endpoint)
    case None => None
    case Some(strategy) => Some(Extract(strategy, doc, statusCode))
  }

  // ---------------------------------------------------------------------------
  // The response object
  // ---------------------------------------------------------------------------

  /**
   * `rest.CustomResponse` as the validator reads it, one field per accessor. A list field
   * is `None` for a null list; a scalar field is `Null` for a null reference.
   */
  datatype CustomResponse = CustomResponse(
    body: Value,
    statusCode: int,
    status: Option<string>,
    itemIds: Option<seq<Value>>,
    itemNames: Option<seq<Value>>,
    genericNames: Option<seq<Value>>,
    storeId: Value,
    category: Value,
    isActive: Value,
    patientId: Value,
    totalDue: Value,
    patientIds: Option<seq<Value>>,
    patientCodes: Option<seq<Value>>,
    listResults: Option<seq<Value>>)

  /**
   * `new CustomResponse(response, statusCode, status, ...)`. The class is not part of this
   * model; the accessor each argument lands in is the one the validator reads it through:
   * three lists become getItemIds/getItemNames/getGenericNames, two lists
   * getPatientIds/getPatientCodes, three scalars getStoreId/getCategory/getIsActive, two
   * scalars getPatientId/getTotalDue, and a record list getListResults. Every other
   * accessor answers null.
   */
  function NewCustomResponse(doc: Value, x: Extraction): (resp: CustomResponse)
    ensures resp.body == doc && resp.statusCode == x.statusCode && resp.status == x.status
    ensures x.payload.Lists? && |x.payload.columns| == 3 ==>
      && resp.itemIds == x.payload.columns[0] && resp.itemNames == x.payload.columns[1]
      && resp.genericNames == x.payload.columns[2]
      && resp.patientIds.None? && resp.patientCodes.None? && resp.listResults.None?
    ensures x.payload.Lists? && |x.payload.columns| == 2 ==>
      && resp.patientIds == x.payload.columns[0] && resp.patientCodes == x.payload.columns[1]
      && resp.itemIds.None? && resp.itemNames.None? && resp.genericNames.None? && resp.listResults.None?
    ensures x.payload.Fields? && |x.payload.values| == 3 ==>
      resp.storeId == x.payload.values[0] && resp.category == x.payload.values[1]
      && resp.isActive == x.payload.values[2] && resp.patientId.Null? && resp.totalDue.Null?
    ensures x.payload.Fields? && |x.payload.values| == 2 ==>
      resp.patientId == x.payload.values[0] && resp.totalDue == x.payload.values[1]
      && resp.storeId.Null? && resp.category.Null? && resp.isActive.Null?
    ensures x.payload.Items? ==> resp.listResults == x.payload.records
  {
    var empty := CustomResponse(doc, x.statusCode, x.status, None, None, None,
                                Null, Null, Null, Null, Null, None, None, None);
    match x.payload
    case Lists(cs) =>
      if |cs| == 3 then empty.(itemIds := cs[0], itemNames := cs[1], genericNames := cs[2])
      else if |cs| == 2 then empty.(patientIds := cs[0], patientCodes := cs[1])
      else empty
    case Fields(vs) =>
      if |vs| == 3 then empty.(storeId := vs[0], category := vs[1], isActive := vs[2])
      else if |vs| == 2 then empty.(patientId := vs[0], totalDue := vs[1])
      else empty
    case Items(rs) => empty.(listResults := rs)
  }

  // ---------------------------------------------------------------------------
  // Properties
  // ---------------------------------------------------------------------------

  /**
   * The columns of one list response are parallel: each has exactly one entry per record
   * of the list at `path`, and entry `i` is record `i`'s value under that column's key.
   */
  lemma RecordColumnsAreParallel(path: seq<string>, keys: seq<string>, doc: Value, statusCode: int)
    requires Extract(RecordColumns(path, keys), doc, statusCode).Success?
    ensures NodeAt(doc, path).Arr?
    ensures var records := NodeAt(doc, path).items;
            var columns := Extract(RecordColumns(path, keys), doc, statusCode).value.payload.columns;
            && |columns| == |keys|
            && forall k :: 0 <= k < |keys| ==>
                 && columns[k].Some?
                 && |columns[k].value| == |records|
                 && forall i :: 0 <= i < |records| ==> columns[k].value[i] == Lookup(records[i], keys[k])
  {
  }

  /**
   * A list endpoint fails rather than answering an empty list when the list node is
   * missing: `results.stream()` dereferences null.
   */
  lemma MissingListNodeThrows(path: seq<string>, keys: seq<string>, doc: Value, statusCode: int)
    requires NodeAt(doc, path) == Null
    ensures Extract(RecordColumns(path, keys), doc, statusCode) == Failure(NullPointer)
  {
  }

  /** A scalar endpoint fails when the object it reads is missing: `results.get` dereferences null. */
  lemma MissingObjectNodeThrows(key: string, keys: seq<string>, doc: Value, statusCode: int)
    requires doc.Obj? && Lookup(doc, key) == Null
    ensures Extract(ObjectFields([key], keys), doc, statusCode) == Failure(NullPointer)
  {
    assert [key][1..] == [];
    assert MapAt(doc, [key]) == MapAt(Get(doc.fields, key), []) == Failure(NullPointer);
  }

  /**
   * The main-store extractor never throws: without a `Results` node every field it reads
   * is null, and on a `Results` object each field is that object's value under its key.
   */
  lemma PathFieldsNeverThrow(keys: seq<string>, doc: Value, statusCode: int)
    ensures var x := Extract(PathFields(keys), doc, statusCode);
      && x.Success? && x.value.payload.Fields? && |x.value.payload.values| == |keys|
      && (Lookup(doc, "Results").Null? ==> forall k :: 0 <= k < |keys| ==> x.value.payload.values[k].Null?)
      && (Lookup(doc, "Results").Obj? ==>
            forall k :: 0 <= k < |keys| ==> x.value.payload.values[k] == Get(Lookup(doc, "Results").fields, keys[k]))
  {
  }

  /**
   * The stock extractor reads `Results.<key>` from whatever `Results` is: null columns
   * without it, one projected column per key over a list, and the list under each key of
   * an object, failing only when one of those values is neither null nor a list.
   */
  lemma SpreadColumnsRead(keys: seq<string>, doc: Value, statusCode: int)
    ensures var node := Lookup(doc, "Results");
            var x := Extract(SpreadColumns(keys), doc, statusCode);
            && (node.Null? ==> x.Success? && forall k :: 0 <= k < |keys| ==> x.value.payload.columns[k].None?)
            && (node.Arr? ==> x.Success? && forall k :: 0 <= k < |keys| ==>
                  x.value.payload.columns[k] == Some(Project(node.items, keys[k])))
            && (node.Obj? ==>
                  && (x.Success? <==> forall k :: 0 <= k < |keys| ==> Get(node.fields, keys[k]).Null? || Get(node.fields, keys[k]).Arr?)
                  && (x.Success? ==> forall k :: 0 <= k < |keys| ==>
                        x.value.payload.columns[k] == (if Get(node.fields, keys[k]).Arr? then Some(Get(node.fields, keys[k]).items) else None)))
            && (!node.Null? && !node.Arr? && !node.Obj? ==> x == Failure(ClassCast))
  {
    var node := Lookup(doc, "Results");
    if node.Obj? {
      var r := ListFields(node.fields, keys);
      if r.Success? {
        forall k | 0 <= k < |keys|
          ensures r.value[k] == (if Get(node.fields, keys[k]).Arr? then Some(Get(node.fields, keys[k]).items) else None)
        {
          assert ListField(node.fields, keys[k]) == Success(r.value[k]);
        }
      }
    }
  }

  /** Scalar endpoints read each key straight from the one object at `path`. */
  lemma ObjectFieldsReadDirectly(path: seq<string>, keys: seq<string>, doc: Value, statusCode: int)
    requires MapAt(doc, path).Success?
    ensures var x := Extract(ObjectFields(path, keys), doc, statusCode);
            && x.Success? && x.value.payload.Fields?
            && |x.value.payload.values| == |keys|
            && forall k :: 0 <= k < |keys| ==> x.value.payload.values[k] == Get(MapAt(doc, path).value, keys[k])
  {
  }

  /** The provisional-items list reaches the response element for element, without projection. */
  lemma ProvisionalItemsPassThrough(doc: Value, statusCode: int, items: seq<Value>)
    requires NodeAt(doc, ["Results", "ProvisionalItems"]) == Arr(items)
    ensures Respond("getProvisionalItemsListByPatientIdAndSchemeId", doc, statusCode)
            == Some(Success(Extraction(statusCode, GetString(doc, "Status"), Items(Some(items)))))
  {
  }
}
