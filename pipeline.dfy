/**
 * ApiUtil's extraction followed by the validator: what a response built by an endpoint
 * method of ApiUtil looks like to `validateResponseFields` under the same method name.
 */
module Pipeline {
  import opened Wrappers
  import opened Json
  import opened ApiUtil
  import opened FieldValidator
  import opened EndpointRules

  /**
   * Every list endpoint whose extraction succeeds yields a response the validator can
   * walk without an exception: its columns are present and of equal length, since each
   * is one projection of the same record list. Three keys fill the item-list accessors,
   * two keys the patient-list accessors.
   */
  lemma ListResponsesAligned(path: seq<string>, keys: seq<string>, doc: Value, statusCode: int, x: Extraction)
    requires Extract(RecordColumns(path, keys), doc, statusCode) == Success(x)
    ensures |keys| == 3 ==> var r := NewCustomResponse(doc, x);
      && ItemColumnsAligned(r)
      && |r.itemNames.value| == |r.itemIds.value| && |r.genericNames.value| == |r.itemIds.value|
    ensures |keys| == 2 ==> var r := NewCustomResponse(doc, x);
      && PatientColumnsAligned(r)
      && |r.patientCodes.value| == |r.patientIds.value|
  {
    RecordColumnsAreParallel(path, keys, doc, statusCode);
  }

  /**
   * The two method tables agree: ApiUtil defines an endpoint method for exactly the method
   * names `validateResponseFields` has a case for, so no name reaches its default case
   * after a successful call.
   */
  lemma EndpointTablesAgree(name: string)
    ensures EndpointStrategy(name).Some? <==> name in Endpoints
  {
  }

  /** The stock record used by `AllStocksScenario`. */
  function ParacetamolStock(): Value {
    Obj(map["ItemId" := Num(1), "ItemName" := Str("Paracetamol"), "GenericName" := Str("Acetaminophen"),
            "SalePrice" := Num(10), "CostPrice" := Num(5)])
  }

  /**
   * `getAllStocks` on `{"Status":"OK","Results":[{one complete stock record}]}` with status
   * 200 extracts one-entry columns of the record's id, name and generic name, and the
   * response passes validation.
   */
  lemma AllStocksScenario()
    ensures var doc := Obj(map["Status" := Str("OK"), "Results" := Arr([ParacetamolStock()])]);
      var x := Extraction(200, Some("OK"),
                          Lists([Some([Num(1)]), Some([Str("Paracetamol")]), Some([Str("Acetaminophen")])]));
      && Respond("getAllStocks", doc, 200) == Some(Success(x))
      && Shaped("getAllStocks", NewCustomResponse(doc, x))
      && Verdict("getAllStocks", NewCustomResponse(doc, x))
  {
    var doc := Obj(map["Status" := Str("OK"), "Results" := Arr([ParacetamolStock()])]);
    var x := Extraction(200, Some("OK"),
                        Lists([Some([Num(1)]), Some([Str("Paracetamol")]), Some([Str("Acetaminophen")])]));
    var keys := ["ItemId", "ItemName", "GenericName"];
    var columns := ProjectAll([ParacetamolStock()], keys);
    assert columns[0].value == [Num(1)];
    assert columns[1].value == [Str("Paracetamol")];
    assert columns[2].value == [Str("Acetaminophen")];
    assert columns == x.payload.columns;
    AllStocksVerdict(NewCustomResponse(doc, x));
  }

  /**
   * `getBillingSummaryByPatientId` on a summary for patient 115 extracts the id and total
   * due, and the response fails validation, which expects patient 114.
   */
  lemma BillingSummaryScenario(totalDue: int)
    ensures var doc := Obj(map["Results" := Obj(map["PatientId" := Num(115), "TotalDue" := Num(totalDue)])]);
      var x := Extraction(200, None, Fields([Num(115), Num(totalDue)]));
      && Respond("getBillingSummaryByPatientId", doc, 200) == Some(Success(x))
      && Shaped("getBillingSummaryByPatientId", NewCustomResponse(doc, x))
      && !Verdict("getBillingSummaryByPatientId", NewCustomResponse(doc, x))
  {
    var doc := Obj(map["Results" := Obj(map["PatientId" := Num(115), "TotalDue" := Num(totalDue)])]);
    var x := Extraction(200, None, Fields([Num(115), Num(totalDue)]));
    var summary := map["PatientId" := Num(115), "TotalDue" := Num(totalDue)];
    assert ["Results"][1..] == [];
    assert MapAt(doc, ["Results"]) == MapAt(Obj(summary), []) == Success(summary);
    var values := ReadFields(summary, ["PatientId", "TotalDue"]);
    assert values[0] == Num(115) && values[1] == Num(totalDue);
    assert values == [Num(115), Num(totalDue)];
    BillingSummaryNumericId(NewCustomResponse(doc, x), 115);
  }

  /**
   * `getMainStore` on a document without `Results` raises nothing: GPath reads every field
   * as null, and the response fails validation.
   */
  lemma MainStoreWithoutResults(doc: Value, statusCode: int)
    requires Lookup(doc, "Results").Null?
    ensures var x := Extraction(statusCode, GetString(doc, "Status"), Fields([Null, Null, Null]));
      && Respond("getMainStore", doc, statusCode) == Some(Success(x))
      && Shaped("getMainStore", NewCustomResponse(doc, x))
      && !Verdict("getMainStore", NewCustomResponse(doc, x))
  {
    var keys := ["StoreId", "Category", "IsActive"];
    PathFieldsNeverThrow(keys, doc, statusCode);
    var values := PathValues(Lookup(doc, "Results"), keys);
    assert values == [Null, Null, Null];
    var x := Extraction(statusCode, GetString(doc, "Status"), Fields([Null, Null, Null]));
    MainStoreVerdict(NewCustomResponse(doc, x));
  }

  /** An admitted-patients record: ids, and a discharge date only when one is given. */
  function Admission(patientId: int, visitId: int, dischargeDate: Option<string>): Value {
    var record := map["PatientId" := Num(patientId), "VisitId" := Num(visitId)];
    match dischargeDate
    case None => Obj(record)
    case Some(date) => Obj(record["DischargeDate" := Str(date)])
  }

  /** Two admissions, the second discharged on `date` when one is given. */
  function Admissions(date: Option<string>): Value {
    Obj(map["Results" := Arr([Admission(1, 10, None), Admission(2, 20, date)])])
  }

  /** The three columns `getAdmittedPatients` projects from the two admissions. */
  lemma AdmissionColumns(date: Option<string>)
    ensures ProjectAll([Admission(1, 10, None), Admission(2, 20, date)], ["PatientId", "VisitId", "DischargeDate"])
         == [Some([Num(1), Num(2)]), Some([Num(10), Num(20)]),
             Some(if date.None? then [Null, Null] else [Null, Str(date.value)])]
  {
    var columns := ProjectAll([Admission(1, 10, None), Admission(2, 20, date)], ["PatientId", "VisitId", "DischargeDate"]);
    assert columns[0].value == [Num(1), Num(2)];
    assert columns[1].value == [Num(10), Num(20)];
    assert columns[2].value == if date.None? then [Null, Null] else [Null, Str(date.value)];
  }

  /** A list endpoint whose list node holds only records answers one projected column per key. */
  lemma RecordListExtract(path: seq<string>, keys: seq<string>, doc: Value, statusCode: int, records: seq<Value>)
    requires AsRecordList(NodeAt(doc, path)) == Success(records)
    ensures Extract(RecordColumns(path, keys), doc, statusCode)
         == Success(Extraction(statusCode, GetString(doc, "Status"), Lists(ProjectAll(records, keys))))
  {
  }

  /** The extraction `getAdmittedPatients` performs on `Admissions(date)`. */
  lemma AdmissionsExtract(date: Option<string>)
    ensures var dischargeDates := if date.None? then [Null, Null] else [Null, Str(date.value)];
      Respond("getAdmittedPatients", Admissions(date), 200)
        == Some(Success(Extraction(200, None,
                                   Lists([Some([Num(1), Num(2)]), Some([Num(10), Num(20)]), Some(dischargeDates)]))))
  {
    var records := [Admission(1, 10, None), Admission(2, 20, date)];
    var keys := ["PatientId", "VisitId", "DischargeDate"];
    assert EndpointStrategy("getAdmittedPatients") == Some(RecordColumns(["Results"], keys));
    assert AsRecordList(NodeAt(Admissions(date), ["Results"])) == Success(records) by {
      assert NodeAt(Admissions(date), ["Results"]) == Arr(records);
    }
    assert GetString(Admissions(date), "Status") == None;
    RecordListExtract(["Results"], keys, Admissions(date), 200, records);
    AdmissionColumns(date);
  }

  /** Two admitted patients with distinct ids pass exactly when the second has no discharge date. */
  lemma TwoAdmissionsVerdict(resp: CustomResponse, date: Value)
    requires resp.itemIds == Some([Num(1), Num(2)]) && resp.itemNames == Some([Num(10), Num(20)])
    requires resp.genericNames == Some([Null, date])
    ensures Shaped("getAdmittedPatients", resp)
    ensures Verdict("getAdmittedPatients", resp) <==> date.Null?
  {
    AdmittedPatientsVerdict(resp);
    assert Distinct(resp.itemIds.value) && Distinct(resp.itemNames.value);
    assert resp.genericNames.value[1] == date;
  }

  /**
   * `getAdmittedPatients` on two admissions: the response passes exactly when neither carries
   * a discharge date, the missing key projecting to null.
   */
  lemma AdmissionsScenario(date: Option<string>)
    ensures var dischargeDates := if date.None? then [Null, Null] else [Null, Str(date.value)];
      var x := Extraction(200, None, Lists([Some([Num(1), Num(2)]), Some([Num(10), Num(20)]), Some(dischargeDates)]));
      && Respond("getAdmittedPatients", Admissions(date), 200) == Some(Success(x))
      && Shaped("getAdmittedPatients", NewCustomResponse(Admissions(date), x))
      && (Verdict("getAdmittedPatients", NewCustomResponse(Admissions(date), x)) <==> date.None?)
  {
    AdmissionsExtract(date);
    var second := if date.None? then Null else Str(date.value);
    var x := Extraction(200, None, Lists([Some([Num(1), Num(2)]), Some([Num(10), Num(20)]), Some([Null, second])]));
    TwoAdmissionsVerdict(NewCustomResponse(Admissions(date), x), second);
  }

  /**
   * The requisition extractor reads the key spelled "RequistionNo". A requisition list
   * whose records lack that spelling (spelling it "RequisitionNo", as the validator's
   * field list does) projects a null first column, and a non-empty such list fails validation.
   */
  lemma RequisitionKeySpelling(records: seq<Value>, doc: Value, statusCode: int)
    requires |records| > 0
    requires forall i :: 0 <= i < |records| ==> records[i].Obj? && "RequistionNo" !in records[i].fields
    requires NodeAt(doc, ["Results", "requisitionList"]) == Arr(records)
    ensures Respond("getRequisitionByDateRange", doc, statusCode).Some?
    ensures Respond("getRequisitionByDateRange", doc, statusCode).value.Success?
    ensures var resp := NewCustomResponse(doc, Respond("getRequisitionByDateRange", doc, statusCode).value.value);
      && ItemColumnsAligned(resp)
      && |resp.itemIds.value| == |records|
      && (forall i :: 0 <= i < |records| ==> resp.itemIds.value[i].Null?)
      && Shaped("getRequisitionByDateRange", resp)
      && !Verdict("getRequisitionByDateRange", resp)
  {
    var path, keys := ["Results", "requisitionList"], ["RequistionNo", "RequisitionStatus", "RequisitionId"];
    assert ElementFault(records).None?;
    var x := Respond("getRequisitionByDateRange", doc, statusCode).value.value;
    RecordColumnsAreParallel(path, keys, doc, statusCode);
    ListResponsesAligned(path, keys, doc, statusCode, x);
    RequisitionVerdict(NewCustomResponse(doc, x));
    assert NewCustomResponse(doc, x).itemIds.value[0] == Null;
  }
}
