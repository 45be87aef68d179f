/**
 * What `validateResponseFields` demands, case by case, stated directly on the accessors
 * of `CustomResponse` (named as the source names the lists it reads), together with the
 * shape under which that case runs to completion.
 */
module EndpointRules {
  import opened Wrappers
  import opened Json
  import opened ApiUtil
  import opened FieldValidator

  /** The three item-list accessors are present, and the second and third are at least as long as the first. */
  predicate ItemColumnsAligned(resp: CustomResponse) {
    && resp.itemIds.Some? && resp.itemNames.Some? && resp.genericNames.Some?
    && |resp.itemNames.value| >= |resp.itemIds.value|
    && |resp.genericNames.value| >= |resp.itemIds.value|
  }

  /** The two patient-list accessors are present, and the second is at least as long as the first. */
  predicate PatientColumnsAligned(resp: CustomResponse) {
    && resp.patientIds.Some? && resp.patientCodes.Some?
    && |resp.patientCodes.value| >= |resp.patientIds.value|
  }

  predicate NoNulls(xs: seq<Value>) {
    forall i :: 0 <= i < |xs| ==> !xs[i].Null?
  }

  /** A name outside the switch reaches `default` and is rejected whatever the response. */
  lemma UnknownEndpointFails(methodName: string, resp: CustomResponse)
    requires methodName !in Endpoints
    ensures Shaped(methodName, resp) && !Verdict(methodName, resp)
  {
  }

  /** `getAllStocks`: a non-empty `Results` list whose records all carry the five stock keys, and `Status` "OK". */
  lemma AllStocksVerdict(resp: CustomResponse)
    requires StockShaped(resp.body)
    ensures Shaped("getAllStocks", resp)
    ensures var results := Lookup(resp.body, "Results");
      Verdict("getAllStocks", resp) <==>
        && results.Arr? && |results.items| > 0
        && (forall i :: 0 <= i < |results.items| ==>
              var stock := results.items[i].fields;
              "ItemId" in stock && "ItemName" in stock && "GenericName" in stock
              && "SalePrice" in stock && "CostPrice" in stock)
        && GetString(resp.body, "Status") == Some("OK")
  {
    assert CheckFor("getAllStocks") == Some(StockRecords(["ItemId", "ItemName", "GenericName", "SalePrice", "CostPrice"]));
  }

  /** `getMainStore`: store id, category and active flag are all non-null. */
  lemma MainStoreVerdict(resp: CustomResponse)
    ensures Shaped("getMainStore", resp)
    ensures Verdict("getMainStore", resp) <==>
      !resp.storeId.Null? && !resp.category.Null? && !resp.isActive.Null?
  {
    assert CheckFor("getMainStore") == Some(NonNullFields([StoreId, Category, IsActive], None));
    assert FieldOf(resp, StoreId) == resp.storeId && FieldOf(resp, Category) == resp.category
      && FieldOf(resp, IsActive) == resp.isActive;
  }

  /** `getRequisitionByDateRange`: no null number, status or id at any index; the ids (third list) never repeat. */
  lemma RequisitionVerdict(resp: CustomResponse)
    requires ItemColumnsAligned(resp)
    ensures Shaped("getRequisitionByDateRange", resp)
    ensures var requisitionNos, requisitionStatuses, requisitionIds :=
              resp.itemIds.value, resp.itemNames.value, resp.genericNames.value;
      Verdict("getRequisitionByDateRange", resp) <==>
        && (forall i :: 0 <= i < |requisitionNos| ==>
              !requisitionNos[i].Null? && !requisitionStatuses[i].Null? && !requisitionIds[i].Null?)
        && Distinct(requisitionIds)
  {
    ItemRowsNotNull(resp);
    assert ListOf(resp, GenericNames) == resp.genericNames;
  }

  /** `getPatientConsumptions`: no null entry at any index, and none of the three lists is empty. */
  lemma PatientConsumptionsVerdict(resp: CustomResponse)
    requires ItemColumnsAligned(resp)
    ensures Shaped("getPatientConsumptions", resp)
    ensures var patientIds, hospitalNos, patientVisitIds :=
              resp.itemIds.value, resp.itemNames.value, resp.genericNames.value;
      Verdict("getPatientConsumptions", resp) <==>
        && (forall i :: 0 <= i < |patientIds| ==>
              !patientIds[i].Null? && !hospitalNos[i].Null? && !patientVisitIds[i].Null?)
        && |patientIds| > 0 && |hospitalNos| > 0 && |patientVisitIds| > 0
  {
    ItemRowsNotNull(resp);
  }

  /**
   * `getPatientConsumptionInfoByPatientIdAndVisitId`: the `PatientConsumption` object has the
   * four header keys, and `PatientConsumptionItems` is a non-empty list whose every item has
   * the nine item keys.
   */
  lemma ConsumptionInfoVerdict(resp: CustomResponse)
    requires ConsumptionShaped(resp.body)
    ensures Shaped("getPatientConsumptionInfoByPatientIdAndVisitId", resp)
    ensures var results := Lookup(resp.body, "Results").fields;
      var header := Get(results, "PatientConsumption");
      var items := Get(results, "PatientConsumptionItems");
      Verdict("getPatientConsumptionInfoByPatientIdAndVisitId", resp) <==>
        && header.Obj?
        && HasKeys(header.fields, ["PatientId", "PatientName", "HospitalNo", "StoreId"])
        && items.Arr? && |items.items| > 0
        && (forall i :: 0 <= i < |items.items| ==>
              HasKeys(items.items[i].fields, ["PatientConsumptionItemId", "ItemId", "ItemName", "Quantity",
                                              "SalePrice", "TotalAmount", "BatchNo", "ExpiryDate", "StoreId"]))
  {
  }

  /** `getBillingSchemeBySchemeId`: code, name and id non-null, and the id's text is exactly "4". */
  lemma BillingSchemeVerdict(resp: CustomResponse)
    ensures Shaped("getBillingSchemeBySchemeId", resp)
    ensures var schemeCode, schemeName, schemeId := resp.storeId, resp.category, resp.isActive;
      Verdict("getBillingSchemeBySchemeId", resp) <==>
        !schemeCode.Null? && !schemeName.Null? && !schemeId.Null? && Text(schemeId) == "4"
  {
    MainStoreVerdict(resp);
  }

  /** A numeric scheme id passes exactly when it is 4. */
  lemma BillingSchemeNumericId(resp: CustomResponse, n: int)
    requires resp.isActive == Num(n)
    ensures Shaped("getBillingSchemeBySchemeId", resp)
    ensures Verdict("getBillingSchemeBySchemeId", resp) <==>
      !resp.storeId.Null? && !resp.category.Null? && n == 4
  {
    BillingSchemeVerdict(resp);
    NumberTextMatches(n, 4);
    assert IntText(4) == "4";
  }

  /** `getBillingSummaryByPatientId`: patient id and total due non-null, and the id's text is exactly "114". */
  lemma BillingSummaryVerdict(resp: CustomResponse)
    ensures Shaped("getBillingSummaryByPatientId", resp)
    ensures Verdict("getBillingSummaryByPatientId", resp) <==>
      !resp.patientId.Null? && !resp.totalDue.Null? && Text(resp.patientId) == "114"
  {
    assert FieldOf(resp, PatientId) == resp.patientId && FieldOf(resp, TotalDue) == resp.totalDue;
  }

  /** A numeric patient id passes exactly when it is 114. */
  lemma BillingSummaryNumericId(resp: CustomResponse, n: int)
    requires resp.patientId == Num(n)
    ensures Shaped("getBillingSummaryByPatientId", resp)
    ensures Verdict("getBillingSummaryByPatientId", resp) <==> !resp.totalDue.Null? && n == 114
  {
    BillingSummaryVerdict(resp);
    NumberTextMatches(n, 114);
    assert IntText(114) == "114" by {
      assert NatText(114) == NatText(11) + [DigitChar(4)];
      assert NatText(11) == NatText(1) + [DigitChar(1)];
    }
  }

  /** `getConsumptionsListOfAPatientById`: no null entry at any index; consumption ids never repeat. */
  lemma ConsumptionsListVerdict(resp: CustomResponse)
    requires ItemColumnsAligned(resp)
    ensures Shaped("getConsumptionsListOfAPatientById", resp)
    ensures var consumptionIds, receiptNos, totalAmounts :=
              resp.itemIds.value, resp.itemNames.value, resp.genericNames.value;
      Verdict("getConsumptionsListOfAPatientById", resp) <==>
        && (forall i :: 0 <= i < |consumptionIds| ==>
              !consumptionIds[i].Null? && !receiptNos[i].Null? && !totalAmounts[i].Null?)
        && Distinct(consumptionIds)
  {
    ItemRowsNotNull(resp);
  }

  /** `getReturnConsumptionsList`: no null entry at any index; return receipt numbers never repeat. */
  lemma ReturnConsumptionsVerdict(resp: CustomResponse)
    requires ItemColumnsAligned(resp)
    ensures Shaped("getReturnConsumptionsList", resp)
    ensures var receiptNos, hospitalNos, patientIds :=
              resp.itemIds.value, resp.itemNames.value, resp.genericNames.value;
      Verdict("getReturnConsumptionsList", resp) <==>
        && (forall i :: 0 <= i < |receiptNos| ==>
              !receiptNos[i].Null? && !hospitalNos[i].Null? && !patientIds[i].Null?)
        && Distinct(receiptNos)
  {
    ItemRowsNotNull(resp);
  }

  /** `getDischargedPatients`: no null entry at any index; patient visit ids (second list) never repeat. */
  lemma DischargedPatientsVerdict(resp: CustomResponse)
    requires ItemColumnsAligned(resp)
    ensures Shaped("getDischargedPatients", resp)
    ensures var visitCodes, patientVisitIds, patientIds :=
              resp.itemIds.value, resp.itemNames.value, resp.genericNames.value;
      Verdict("getDischargedPatients", resp) <==>
        && (forall i :: 0 <= i < |visitCodes| ==>
              !visitCodes[i].Null? && !patientVisitIds[i].Null? && !patientIds[i].Null?)
        && Distinct(patientVisitIds)
  {
    ItemRowsNotNull(resp);
    assert ListOf(resp, ItemNames) == resp.itemNames;
  }

  /**
   * `getAdmittedPatients`: patient and visit ids non-null and the discharge date null at
   * every index (an admitted patient has not left); neither patient ids nor visit ids repeat.
   */
  lemma AdmittedPatientsVerdict(resp: CustomResponse)
    requires ItemColumnsAligned(resp)
    ensures Shaped("getAdmittedPatients", resp)
    ensures var patIds, visitIds, dischargeDates :=
              resp.itemIds.value, resp.itemNames.value, resp.genericNames.value;
      Verdict("getAdmittedPatients", resp) <==>
        && (forall i :: 0 <= i < |patIds| ==>
              !patIds[i].Null? && !visitIds[i].Null? && dischargeDates[i].Null?)
        && Distinct(patIds) && Distinct(visitIds)
  {
    assert ListOf(resp, ItemIds) == resp.itemIds && ListOf(resp, ItemNames) == resp.itemNames
      && ListOf(resp, GenericNames) == resp.genericNames;
  }

  /** `searchIpdPatientByPatientId`: no null id or code at any index; neither ids nor codes repeat. */
  lemma IpdPatientSearchVerdict(resp: CustomResponse)
    requires PatientColumnsAligned(resp)
    ensures Shaped("searchIpdPatientByPatientId", resp)
    ensures var patientIds, patientCodes := resp.patientIds.value, resp.patientCodes.value;
      Verdict("searchIpdPatientByPatientId", resp) <==>
        && (forall i :: 0 <= i < |patientIds| ==> !patientIds[i].Null? && !patientCodes[i].Null?)
        && Distinct(patientIds) && Distinct(patientCodes)
  {
    PatientRowsNotNull(resp);
    assert ListOf(resp, PatientIds) == resp.patientIds && ListOf(resp, PatientCodes) == resp.patientCodes;
  }

  /** `getPatientProvisionalInfo`: the same demands as the IPD patient search. */
  lemma ProvisionalInfoVerdict(resp: CustomResponse)
    requires PatientColumnsAligned(resp)
    ensures Shaped("getPatientProvisionalInfo", resp)
    ensures var patientIds, patientCodes := resp.patientIds.value, resp.patientCodes.value;
      Verdict("getPatientProvisionalInfo", resp) <==>
        && (forall i :: 0 <= i < |patientIds| ==> !patientIds[i].Null? && !patientCodes[i].Null?)
        && Distinct(patientIds) && Distinct(patientCodes)
  {
    PatientRowsNotNull(resp);
    assert ListOf(resp, PatientIds) == resp.patientIds && ListOf(resp, PatientCodes) == resp.patientCodes;
  }

  /**
   * `getProvisionalItemsListByPatientIdAndSchemeId`: the list is non-empty and every record's
   * `PatientId` is non-null with a text that reads as a Java `int`. The comparison of an id with
   * its own re-parsed text never rejects anything (`IntegerTextRoundTrip`).
   */
  lemma ProvisionalItemsVerdict(resp: CustomResponse)
    requires resp.listResults.Some? && RecordsOnly(resp.listResults.value)
    ensures Shaped("getProvisionalItemsListByPatientIdAndSchemeId", resp)
    ensures var provisionalItems := resp.listResults.value;
      Verdict("getProvisionalItemsListByPatientIdAndSchemeId", resp) <==>
        && |provisionalItems| > 0
        && (forall i :: 0 <= i < |provisionalItems| ==>
              var patientIdObj := Get(provisionalItems[i].fields, "PatientId");
              !patientIdObj.Null? && ParseInteger(Text(patientIdObj)).Some?)
  {
  }

  /** A record whose `PatientId` is a number passes exactly when the number fits a Java `int`. */
  lemma ProvisionalNumericId(n: int)
    ensures PatientIdReadable(Num(n)) <==> IsInteger(n)
  {
    IntegerTextRoundTrip(n);
  }

  /** `getInvoicesByDateRange`: no null number or code at any index; repetition is allowed. */
  lemma InvoicesVerdict(resp: CustomResponse)
    requires PatientColumnsAligned(resp)
    ensures Shaped("getInvoicesByDateRange", resp)
    ensures var invoiceNumbers, invoiceCodes := resp.patientIds.value, resp.patientCodes.value;
      Verdict("getInvoicesByDateRange", resp) <==>
        forall i :: 0 <= i < |invoiceNumbers| ==> !invoiceNumbers[i].Null? && !invoiceCodes[i].Null?
  {
    PatientRowsNotNull(resp);
  }

  /**
   * With no invoice numbers the loop body never runs, so the codes are never read: even a
   * null code list neither throws nor fails the check.
   */
  lemma NoInvoicesPass(resp: CustomResponse)
    requires resp.patientIds == Some([])
    ensures Shaped("getInvoicesByDateRange", resp)
    ensures Verdict("getInvoicesByDateRange", resp)
  {
  }

  /** `getProviderList`: no null id or name at any index; neither employee ids nor names repeat. */
  lemma ProviderListVerdict(resp: CustomResponse)
    requires PatientColumnsAligned(resp)
    ensures Shaped("getProviderList", resp)
    ensures var employeeIds, employeeNames := resp.patientIds.value, resp.patientCodes.value;
      Verdict("getProviderList", resp) <==>
        && (forall i :: 0 <= i < |employeeIds| ==> !employeeIds[i].Null? && !employeeNames[i].Null?)
        && Distinct(employeeIds) && Distinct(employeeNames)
  {
    PatientRowsNotNull(resp);
    assert ListOf(resp, PatientIds) == resp.patientIds && ListOf(resp, PatientCodes) == resp.patientCodes;
  }

  /** `getUsersList`: no null entry at any index; user ids and short names never repeat; department names may. */
  lemma UsersListVerdict(resp: CustomResponse)
    requires ItemColumnsAligned(resp)
    ensures Shaped("getUsersList", resp)
    ensures var userIds, shortNames, departmentNames :=
              resp.itemIds.value, resp.itemNames.value, resp.genericNames.value;
      Verdict("getUsersList", resp) <==>
        && (forall i :: 0 <= i < |userIds| ==>
              !userIds[i].Null? && !shortNames[i].Null? && !departmentNames[i].Null?)
        && Distinct(userIds) && Distinct(shortNames)
  {
    ItemRowsNotNull(resp);
    assert ListOf(resp, ItemIds) == resp.itemIds && ListOf(resp, ItemNames) == resp.itemNames;
  }

  /**
   * `getUsersList` builds a set from the department names before it compares any sizes, so a
   * null department list throws, even when there are no users at all.
   */
  lemma NullDepartmentsThrow(resp: CustomResponse)
    requires resp.genericNames.None?
    ensures !Shaped("getUsersList", resp)
  {
    assert ListOf(resp, GenericNames).None?;
  }

  /** Two users of one department do not fail the users-list check. */
  lemma UsersListAllowsSharedDepartment(resp: CustomResponse, i: nat, j: nat)
    requires ItemColumnsAligned(resp)
    requires NoNulls(resp.itemIds.value) && Distinct(resp.itemIds.value)
    requires NoNulls(resp.itemNames.value) && Distinct(resp.itemNames.value)
    requires NoNulls(resp.genericNames.value)
    requires i < j < |resp.genericNames.value| && resp.genericNames.value[i] == resp.genericNames.value[j]
    ensures Shaped("getUsersList", resp) && Verdict("getUsersList", resp)
    ensures !Distinct(resp.genericNames.value)
  {
    UsersListVerdict(resp);
  }

  /** `getCurrentFiscalYearDetails`: fiscal year id and name are non-null; their values are not compared. */
  lemma FiscalYearVerdict(resp: CustomResponse)
    ensures Shaped("getCurrentFiscalYearDetails", resp)
    ensures var fiscalYearId, fiscalYearName := resp.patientId, resp.totalDue;
      Verdict("getCurrentFiscalYearDetails", resp) <==> !fiscalYearId.Null? && !fiscalYearName.Null?
  {
    assert FieldOf(resp, PatientId) == resp.patientId && FieldOf(resp, TotalDue) == resp.totalDue;
  }

  /** The three item lists checked for non-null entries index by index. */
  lemma ItemRowsNotNull(resp: CustomResponse)
    requires ItemColumnsAligned(resp)
    ensures var rows := [(ItemIds, NotNull), (ItemNames, NotNull), (GenericNames, NotNull)];
      var n := |resp.itemIds.value|;
      && Covers(resp, rows, n)
      && (RowsObey(resp, rows, n) <==>
            forall i :: 0 <= i < n ==>
              !resp.itemIds.value[i].Null? && !resp.itemNames.value[i].Null? && !resp.genericNames.value[i].Null?)
  {
  }

  /** The two patient lists checked for non-null entries index by index. */
  lemma PatientRowsNotNull(resp: CustomResponse)
    requires PatientColumnsAligned(resp)
    ensures var rows := [(PatientIds, NotNull), (PatientCodes, NotNull)];
      var n := |resp.patientIds.value|;
      && Covers(resp, rows, n)
      && (RowsObey(resp, rows, n) <==>
            forall i :: 0 <= i < n ==> !resp.patientIds.value[i].Null? && !resp.patientCodes.value[i].Null?)
  {
  }
}
