/**
 * `TestCodeValidator.validateResponseFields`: the per-endpoint checks run against a
 * `CustomResponse`, folded into one boolean without short-circuit.
 *
 * The eighteen cases of the source's switch are written as a table, `CheckFor`, whose
 * entries say which accessor is checked how. `Verdict` states declaratively what the
 * checks of an entry demand; the methods below walk the same data the way the source
 * does (index loops threading `isValid`, a hash set compared by size) and are proved to
 * compute `Verdict`.
 */
module FieldValidator {
  import opened Wrappers
  import opened Json
  import opened ApiUtil

  /** The list accessors of `CustomResponse` the validator reads. */
  datatype Column = ItemIds | ItemNames | GenericNames | PatientIds | PatientCodes

  /** The scalar accessors of `CustomResponse` the validator reads. */
  datatype Field = StoreId | Category | IsActive | PatientId | TotalDue

  /** What a per-index check demands of an entry: `!= null`, or for discharge dates `== null`. */
  datatype Rule = NotNull | MustBeNull

  function ListOf(resp: CustomResponse, c: Column): Option<seq<Value>> {
    match c
    case ItemIds => resp.itemIds
    case ItemNames => resp.itemNames
    case GenericNames => resp.genericNames
    case PatientIds => resp.patientIds
    case PatientCodes => resp.patientCodes
  }

  function FieldOf(resp: CustomResponse, f: Field): Value {
    match f
    case StoreId => resp.storeId
    case Category => resp.category
    case IsActive => resp.isActive
    case PatientId => resp.patientId
    case TotalDue => resp.totalDue
  }

  predicate Obeys(rule: Rule, v: Value) {
    match rule
    case NotNull => !v.Null?
    case MustBeNull => v.Null?
  }

  /** The shape of the checks one case of the switch performs. */
  datatype Check =
      /** Every record of the body's `Results` list has every key, and `Status` is "OK". */
    | StockRecords(keys: seq<string>)
      /** Each field is non-null; the pinned field, when non-null, has exactly the given text. */
    | NonNullFields(fields: seq<Field>, pinned: Option<(Field, string)>)
      /**
       * At every index of the first row column, each row column's entry obeys its rule;
       * each `unique` column has no repeated value; each `nonEmpty` column has an entry. The
       * source also builds a set from each `uncompared` column but never looks at its size.
       */
    | ParallelColumns(rows: seq<(Column, Rule)>, unique: seq<Column>, nonEmpty: seq<Column>,
                      uncompared: seq<Column>)
      /** The body's `Results.PatientConsumption` has the header keys, and every consumption item the item keys. */
    | ConsumptionInfo(headerKeys: seq<string>, itemKeys: seq<string>)
      /** The record list is non-empty and each record's `key` reads as a Java `int`. */
    | ProvisionalItems(key: string)

  /** The method names the switch recognises. */
  const Endpoints: set<string> := {
    "getAllStocks", "getMainStore", "getRequisitionByDateRange", "getPatientConsumptions",
    "getPatientConsumptionInfoByPatientIdAndVisitId", "getBillingSchemeBySchemeId",
    "getBillingSummaryByPatientId", "getConsumptionsListOfAPatientById", "getReturnConsumptionsList",
    "getDischargedPatients", "getAdmittedPatients", "searchIpdPatientByPatientId",
    "getPatientProvisionalInfo", "getProvisionalItemsListByPatientIdAndSchemeId",
    "getInvoicesByDateRange", "getProviderList", "getUsersList", "getCurrentFiscalYearDetails"
  }

  /** The checks of each case of the switch; `None` is the `default` branch. */
  function CheckFor(methodName: string): (check: Option<Check>)
    ensures check.None? <==> methodName !in Endpoints
  {
    match methodName
    case "getAllStocks" =>
      Some(StockRecords(["ItemId", "ItemName", "GenericName", "SalePrice", "CostPrice"]))
    case "getMainStore" =>
      Some(NonNullFields([StoreId, Category, IsActive], None))
    case "getRequisitionByDateRange" =>
      Some(ParallelColumns([(ItemIds, NotNull), (ItemNames, NotNull), (GenericNames, NotNull)], [GenericNames], [], []))
    case "getPatientConsumptions" =>
      Some(ParallelColumns([(ItemIds, NotNull), (ItemNames, NotNull), (GenericNames, NotNull)], [],
                           [ItemIds, ItemNames, GenericNames], []))
    case "getPatientConsumptionInfoByPatientIdAndVisitId" =>
      Some(ConsumptionInfo(["PatientId", "PatientName", "HospitalNo", "StoreId"],
                           ["PatientConsumptionItemId", "ItemId", "ItemName", "Quantity", "SalePrice",
                            "TotalAmount", "BatchNo", "ExpiryDate", "StoreId"]))
    case "getBillingSchemeBySchemeId" =>
      Some(NonNullFields([StoreId, Category, IsActive], Some((IsActive, "4"))))
    case "getBillingSummaryByPatientId" =>
      Some(NonNullFields([PatientId, TotalDue], Some((PatientId, "114"))))
    case "getConsumptionsListOfAPatientById" =>
      Some(ParallelColumns([(ItemIds, NotNull), (ItemNames, NotNull), (GenericNames, NotNull)], [ItemIds], [], []))
    case "getReturnConsumptionsList" =>
      Some(ParallelColumns([(ItemIds, NotNull), (ItemNames, NotNull), (GenericNames, NotNull)], [ItemIds], [], []))
    case "getDischargedPatients" =>
      Some(ParallelColumns([(ItemIds, NotNull), (ItemNames, NotNull), (GenericNames, NotNull)], [ItemNames], [], []))
    case "getAdmittedPatients" =>
      Some(ParallelColumns([(ItemIds, NotNull), (ItemNames, NotNull), (GenericNames, MustBeNull)],
                           [ItemIds, ItemNames], [], []))
    case "searchIpdPatientByPatientId" =>
      Some(ParallelColumns([(PatientIds, NotNull), (PatientCodes, NotNull)], [PatientIds, PatientCodes], [], []))
    case "getPatientProvisionalInfo" =>
      Some(ParallelColumns([(PatientIds, NotNull), (PatientCodes, NotNull)], [PatientIds, PatientCodes], [], []))
    case "getProvisionalItemsListByPatientIdAndSchemeId" =>
      Some(ProvisionalItems("PatientId"))
    case "getInvoicesByDateRange" =>
      Some(ParallelColumns([(PatientIds, NotNull), (PatientCodes, NotNull)], [], [], []))
    case "getProviderList" =>
      Some(ParallelColumns([(PatientIds, NotNull), (PatientCodes, NotNull)], [PatientIds, PatientCodes], [], []))
    case "getUsersList" =>
      // The set of DepartmentName values is built, but its size is never compared.
      Some(ParallelColumns([(ItemIds, NotNull), (ItemNames, NotNull), (GenericNames, NotNull)],
                           [ItemIds, ItemNames], [], [GenericNames]))
    case "getCurrentFiscalYearDetails" =>
      Some(NonNullFields([PatientId, TotalDue], None))
    case _ => None
  }

  // ---------------------------------------------------------------------------
  // When the Java code runs to completion rather than throwing
  // ---------------------------------------------------------------------------

  predicate RecordsOnly(items: seq<Value>) {
    forall i :: 0 <= i < |items| ==> items[i].Obj?
  }

  /** `getList("Results")` is null or a list of maps, so `stock.containsKey` cannot throw. */
  predicate StockShaped(body: Value) {
    var results := Lookup(body, "Results");
    results.Null? || (results.Arr? && RecordsOnly(results.items))
  }

  /**
   * When the loop body runs at all (`n > 0`), every row column is a non-null list with at
   * least `n` entries, so `get(i)` for `i < n` cannot throw; a loop that never runs
   * dereferences none of them.
   */
  predicate Covers(resp: CustomResponse, rows: seq<(Column, Rule)>, n: nat) {
    n == 0 || forall row :: row in rows ==> ListOf(resp, row.0).Some? && |ListOf(resp, row.0).value| >= n
  }

  /**
   * The loop runs over the first row column, so that column must be non-null and every
   * other row column at least as long; the set and emptiness checks dereference their lists.
   */
  predicate ColumnsShaped(resp: CustomResponse, rows: seq<(Column, Rule)>, unique: seq<Column>, nonEmpty: seq<Column>) {
    && |rows| > 0
    && ListOf(resp, rows[0].0).Some?
    && Covers(resp, rows, |ListOf(resp, rows[0].0).value|)
    && (forall c :: c in unique ==> ListOf(resp, c).Some?)
    && (forall c :: c in nonEmpty ==> ListOf(resp, c).Some?)
  }

  /** `getMap("Results")` is a map, its `PatientConsumption` a map or null, its items a list of maps or null. */
  predicate ConsumptionShaped(body: Value) {
    var results := Lookup(body, "Results");
    && results.Obj?
    && (var header := Get(results.fields, "PatientConsumption"); header.Null? || header.Obj?)
    && (var items := Get(results.fields, "PatientConsumptionItems");
        items.Null? || (items.Arr? && RecordsOnly(items.items)))
  }

  predicate CheckShaped(check: Check, resp: CustomResponse) {
    match check
    case StockRecords(_) => StockShaped(resp.body)
    case NonNullFields(_, _) => true
    case ParallelColumns(rows, unique, nonEmpty, uncompared) =>
      // `new HashSet<>(list)` throws on a null list, even when the set is never used.
      && ColumnsShaped(resp, rows, unique, nonEmpty)
      && (forall c :: c in uncompared ==> ListOf(resp, c).Some?)
    case ConsumptionInfo(_, _) => ConsumptionShaped(resp.body)
    case ProvisionalItems(_) => resp.listResults.Some? && RecordsOnly(resp.listResults.value)
  }

  /** The inputs on which `validateResponseFields(methodName, resp)` returns instead of throwing. */
  predicate Shaped(methodName: string, resp: CustomResponse) {
    match CheckFor(methodName)
    case None => true
    case Some(check) => CheckShaped(check, resp)
  }

  // ---------------------------------------------------------------------------
  // What each kind of check demands
  // ---------------------------------------------------------------------------

  /** No value occurs twice; two nulls are a repetition like any other. */
  predicate Distinct(xs: seq<Value>) {
    forall i, j :: 0 <= i < j < |xs| ==> xs[i] != xs[j]
  }

  predicate HasKeys(r: Record, keys: seq<string>) {
    forall key :: key in keys ==> key in r
  }

  predicate StocksPass(body: Value, keys: seq<string>)
    requires StockShaped(body)
  {
    var results := Lookup(body, "Results");
    && results.Arr? && |results.items| > 0
    && (forall i :: 0 <= i < |results.items| ==> HasKeys(results.items[i].fields, keys))
    && GetString(body, "Status") == Some("OK")
  }

  /** A pinned field passes when it is null (the null check reports that) or its text is `text`. */
  predicate MatchesPinned(v: Value, text: string) {
    v.Null? || Text(v) == text
  }

  predicate FieldsPass(resp: CustomResponse, fields: seq<Field>, pinned: Option<(Field, string)>) {
    && (forall f :: f in fields ==> !FieldOf(resp, f).Null?)
    && (pinned.Some? ==> MatchesPinned(FieldOf(resp, pinned.value.0), pinned.value.1))
  }

  /** Every row check holds at every index below `n`. */
  predicate RowsObey(resp: CustomResponse, rows: seq<(Column, Rule)>, n: nat)
    requires Covers(resp, rows, n)
  {
    forall i, row :: 0 <= i < n && row in rows ==> Obeys(row.1, ListOf(resp, row.0).value[i])
  }

  predicate ColumnsPass(resp: CustomResponse, rows: seq<(Column, Rule)>, unique: seq<Column>, nonEmpty: seq<Column>)
    requires ColumnsShaped(resp, rows, unique, nonEmpty)
  {
    && RowsObey(resp, rows, |ListOf(resp, rows[0].0).value|)
    && (forall c :: c in unique ==> Distinct(ListOf(resp, c).value))
    && (forall c :: c in nonEmpty ==> |ListOf(resp, c).value| > 0)
  }

  predicate ConsumptionPass(body: Value, headerKeys: seq<string>, itemKeys: seq<string>)
    requires ConsumptionShaped(body)
  {
    var results := Lookup(body, "Results").fields;
    var header := Get(results, "PatientConsumption");
    var items := Get(results, "PatientConsumptionItems");
    && header.Obj? && HasKeys(header.fields, headerKeys)
    && items.Arr? && |items.items| > 0
    && (forall i :: 0 <= i < |items.items| ==> HasKeys(items.items[i].fields, itemKeys))
  }

  /** A patient id the source accepts: non-null, and its text parses as a Java `int`. */
  predicate PatientIdReadable(v: Value) {
    !v.Null? && ParseInteger(Text(v)).Some?
  }

  predicate ProvisionalPass(items: seq<Value>, key: string)
    requires RecordsOnly(items)
  {
    |items| > 0 && forall i :: 0 <= i < |items| ==> PatientIdReadable(Get(items[i].fields, key))
  }

  predicate Passes(check: Check, resp: CustomResponse)
    requires CheckShaped(check, resp)
  {
    match check
    case StockRecords(keys) => StocksPass(resp.body, keys)
    case NonNullFields(fields, pinned) => FieldsPass(resp, fields, pinned)
    case ParallelColumns(rows, unique, nonEmpty, _) => ColumnsPass(resp, rows, unique, nonEmpty)
    case ConsumptionInfo(headerKeys, itemKeys) => ConsumptionPass(resp.body, headerKeys, itemKeys)
    case ProvisionalItems(key) => ProvisionalPass(resp.listResults.value, key)
  }

  /** What `validateResponseFields(methodName, resp)` returns: false for an unknown name. */
  predicate Verdict(methodName: string, resp: CustomResponse)
    requires Shaped(methodName, resp)
  {
    match CheckFor(methodName)
    case None => false
    case Some(check) => Passes(check, resp)
  }

  // ---------------------------------------------------------------------------
  // Uniqueness as the source computes it: a hash set's size against the list's size
  // ---------------------------------------------------------------------------

  /** `new HashSet<>(list)`: the list's elements added one after the other. */
  function ElementSet(xs: seq<Value>): set<Value> {
    if xs == [] then {} else ElementSet(xs[..|xs| - 1]) + {xs[|xs| - 1]}
  }

  lemma {:induction false} ElementSetMembers(xs: seq<Value>)
    ensures forall x :: x in ElementSet(xs) <==> x in xs
  {
    if xs != [] {
      var ys := xs[..|xs| - 1];
      ElementSetMembers(ys);
      assert xs == ys + [xs[|xs| - 1]];
    }
  }

  /**
   * The set built from a list is never larger than the list, and is exactly as large
   * precisely when no value repeats: "set size equals list size" is a duplicate test.
   */
  lemma {:induction false} SetSizeDetectsDuplicates(xs: seq<Value>)
    ensures |ElementSet(xs)| <= |xs|
    ensures |ElementSet(xs)| == |xs| <==> Distinct(xs)
  {
    if xs != [] {
      var ys, y := xs[..|xs| - 1], xs[|xs| - 1];
      SetSizeDetectsDuplicates(ys);
      ElementSetMembers(ys);
      if y in ElementSet(ys) {
        var j :| 0 <= j < |ys| && ys[j] == y;
        assert xs[j] == xs[|xs| - 1];
      } else {
        assert |ElementSet(xs)| == |ElementSet(ys)| + 1;
        assert forall i :: 0 <= i < |ys| ==> xs[i] == ys[i];
        if Distinct(ys) {
          forall i, j | 0 <= i < j < |xs| ensures xs[i] != xs[j] {
            if j == |xs| - 1 {
              assert ys[i] in ys;
            }
          }
        }
      }
    }
  }

  /** The hash set of [101, 102, 101] has two elements, so that list counts as repeating. */
  lemma RepeatedIdShrinksSet()
    ensures |ElementSet([Num(101), Num(102), Num(101)])| == 2 && !Distinct([Num(101), Num(102), Num(101)])
  {
    var ids := [Num(101), Num(102), Num(101)];
    assert [Num(101)][..0] == [] && [Num(101), Num(102)][..1] == [Num(101)];
    assert ElementSet([Num(101), Num(102)]) == {Num(101), Num(102)};
    assert ids[..2] == [Num(101), Num(102)];
    assert ElementSet(ids) == {Num(101), Num(102)};
    assert ids[0] == ids[2];
  }

  /** The hash set of [101, 102, 103] keeps all three, so that list counts as unique. */
  lemma DistinctIdsKeepSize()
    ensures |ElementSet([Num(101), Num(102), Num(103)])| == 3 && Distinct([Num(101), Num(102), Num(103)])
  {
    var ids := [Num(101), Num(102), Num(103)];
    assert [Num(101)][..0] == [] && [Num(101), Num(102)][..1] == [Num(101)];
    assert ElementSet([Num(101), Num(102)]) == {Num(101), Num(102)};
    assert ids[..2] == [Num(101), Num(102)];
    assert ElementSet(ids) == {Num(101), Num(102), Num(103)};
  }

  /** Two nulls collapse into one element of the hash set like any other equal pair. */
  lemma NullsCollapse()
    ensures |ElementSet([Null, Null])| == 1 && !Distinct([Null, Null])
  {
    var nulls := [Null, Null];
    assert nulls[..1] == [Null] && [Null][..0] == [];
    assert ElementSet(nulls) == {Null};
    assert nulls[0] == nulls[1];
  }

  // ---------------------------------------------------------------------------
  // The validator
  // ---------------------------------------------------------------------------

  /** `validateResponseFields`: dispatch on the method name, then run that case's checks. */
  method ValidateResponseFields(methodName: string, resp: CustomResponse) returns (isValid: bool)
    requires Shaped(methodName, resp)
    ensures isValid == Verdict(methodName, resp)
  {
    match CheckFor(methodName)
    case None =>
      isValid := false;
    case Some(StockRecords(keys)) =>
      isValid := CheckStockRecords(resp.body, keys);
    case Some(NonNullFields(fields, pinned)) =>
      isValid := CheckNonNullFields(resp, fields, pinned);
    case Some(ParallelColumns(rows, unique, nonEmpty, _)) =>
      isValid := CheckParallelColumns(resp, rows, unique, nonEmpty);
    case Some(ConsumptionInfo(headerKeys, itemKeys)) =>
      isValid := CheckConsumptionInfo(resp.body, headerKeys, itemKeys);
    case Some(ProvisionalItems(key)) =>
      isValid := CheckProvisionalItems(resp.listResults.value, key);
  }

  /**
   * The `getAllStocks` case: an empty or missing `Results` list fails at once (the early
   * `break`); otherwise every record is checked for every key, then `Status`.
   */
  method CheckStockRecords(body: Value, keys: seq<string>) returns (isValid: bool)
    requires StockShaped(body)
    ensures isValid == StocksPass(body, keys)
  {
    isValid := true;
    var stockResults := Lookup(body, "Results");
    if stockResults.Null? || |stockResults.items| == 0 {
      isValid := false;
      return;
    }
    var items := stockResults.items;
    for i := 0 to |items|
      invariant isValid <==> forall j :: 0 <= j < i ==> HasKeys(items[j].fields, keys)
    {
      var stock := items[i].fields;
      ghost var before := isValid;
      for k := 0 to |keys|
        invariant isValid <==> before && HasKeys(stock, keys[..k])
      {
        assert keys[..k + 1] == keys[..k] + [keys[k]];
        if keys[k] !in stock {
          isValid := false;
        }
      }
      assert keys[..|keys|] == keys;
    }
    var stockStatusField := GetString(body, "Status");
    if stockStatusField.None? || stockStatusField.value != "OK" {
      isValid := false;
    }
  }

  /** The scalar cases: a null check per field, then the optional fixed-text comparison. */
  method CheckNonNullFields(resp: CustomResponse, fields: seq<Field>, pinned: Option<(Field, string)>)
    returns (isValid: bool)
    ensures isValid == FieldsPass(resp, fields, pinned)
  {
    isValid := true;
    for k := 0 to |fields|
      invariant isValid <==> forall f :: f in fields[..k] ==> !FieldOf(resp, f).Null?
    {
      assert fields[..k + 1] == fields[..k] + [fields[k]];
      if FieldOf(resp, fields[k]).Null? {
        isValid := false;
      }
    }
    assert fields[..|fields|] == fields;
    if pinned.Some? {
      var v := FieldOf(resp, pinned.value.0);
      if !v.Null? && Text(v) != pinned.value.1 {
        isValid := false;
      }
    }
  }

  /**
   * The list cases: one pass over the indices of the first row column checking every row
   * column at that index, then the set-size comparisons, then the emptiness checks. A
   * failure never stops the remaining checks.
   */
  method CheckParallelColumns(resp: CustomResponse, rows: seq<(Column, Rule)>, unique: seq<Column>, nonEmpty: seq<Column>)
    returns (isValid: bool)
    requires ColumnsShaped(resp, rows, unique, nonEmpty)
    ensures isValid == ColumnsPass(resp, rows, unique, nonEmpty)
  {
    isValid := true;
    var first := ListOf(resp, rows[0].0).value;
    for i := 0 to |first|
      invariant isValid <==> RowsObey(resp, rows, i)
    {
      ghost var before := isValid;
      for k := 0 to |rows|
        invariant isValid <==> before && forall row :: row in rows[..k] ==> Obeys(row.1, ListOf(resp, row.0).value[i])
      {
        assert rows[..k + 1] == rows[..k] + [rows[k]];
        var column := ListOf(resp, rows[k].0).value;
        if !Obeys(rows[k].1, column[i]) {
          isValid := false;
        }
      }
      assert rows[..|rows|] == rows;
    }
    ghost var rowsPass := isValid;
    for k := 0 to |unique|
      invariant isValid <==> rowsPass && forall c :: c in unique[..k] ==> Distinct(ListOf(resp, c).value)
    {
      assert unique[..k + 1] == unique[..k] + [unique[k]];
      var column := ListOf(resp, unique[k]).value;
      SetSizeDetectsDuplicates(column);
      if |ElementSet(column)| != |column| {
        isValid := false;
      }
    }
    assert unique[..|unique|] == unique;
    ghost var uniquePass := isValid;
    for k := 0 to |nonEmpty|
      invariant isValid <==> uniquePass && forall c :: c in nonEmpty[..k] ==> |ListOf(resp, c).value| > 0
    {
      assert nonEmpty[..k + 1] == nonEmpty[..k] + [nonEmpty[k]];
      if |ListOf(resp, nonEmpty[k]).value| == 0 {
        isValid := false;
      }
    }
    assert nonEmpty[..|nonEmpty|] == nonEmpty;
  }

  /**
   * The consumption-info case: the `PatientConsumption` object must exist and have every
   * header key; the `PatientConsumptionItems` list must exist, be non-empty, and every item
   * must have every item key.
   */
  method CheckConsumptionInfo(body: Value, headerKeys: seq<string>, itemKeys: seq<string>) returns (isValid: bool)
    requires ConsumptionShaped(body)
    ensures isValid == ConsumptionPass(body, headerKeys, itemKeys)
  {
    isValid := true;
    var results := Lookup(body, "Results").fields;
    var patientConsumption := Get(results, "PatientConsumption");
    if patientConsumption.Null? {
      isValid := false;
    } else {
      for k := 0 to |headerKeys|
        invariant isValid <==> HasKeys(patientConsumption.fields, headerKeys[..k])
      {
        assert headerKeys[..k + 1] == headerKeys[..k] + [headerKeys[k]];
        if headerKeys[k] !in patientConsumption.fields {
          isValid := false;
        }
      }
      assert headerKeys[..|headerKeys|] == headerKeys;
    }
    ghost var headerPass := isValid;
    var patientConsumptionItems := Get(results, "PatientConsumptionItems");
    if patientConsumptionItems.Null? || |patientConsumptionItems.items| == 0 {
      isValid := false;
    } else {
      var items := patientConsumptionItems.items;
      for i := 0 to |items|
        invariant isValid <==> headerPass && forall j :: 0 <= j < i ==> HasKeys(items[j].fields, itemKeys)
      {
        var item := items[i].fields;
        ghost var before := isValid;
        for k := 0 to |itemKeys|
          invariant isValid <==> before && HasKeys(item, itemKeys[..k])
        {
          assert itemKeys[..k + 1] == itemKeys[..k] + [itemKeys[k]];
          if itemKeys[k] !in item {
            isValid := false;
          }
        }
        assert itemKeys[..|itemKeys|] == itemKeys;
      }
    }
  }

  /**
   * The body of the provisional-items loop for one patient id: false when it is null, when
   * it is not an `int` and its text does not parse as one, or when the parsed id differs
   * from its own re-parsed text; true otherwise.
   */
  method PatientIdCheck(patientIdObj: Value) returns (ok: bool)
    ensures ok == PatientIdReadable(patientIdObj)
  {
    ok := true;
    if patientIdObj.Null? {
      ok := false;
    } else {
      var patientId1: Option<int> :=
        if patientIdObj.Num? && IsInteger(patientIdObj.n) then Some(patientIdObj.n) else None;
      if patientId1.None? {
        patientId1 := ParseInteger(Text(patientIdObj));
        if patientId1.None? {
          ok := false;
        }
      } else {
        IntegerTextRoundTrip(patientIdObj.n);
      }
      if patientId1.Some? {
        IntegerTextRoundTrip(patientId1.value);
        if ParseInteger(IntText(patientId1.value)) != patientId1 {
          ok := false;
        }
      }
    }
  }

  /** Items `0 .. i` are readable exactly when items `0 .. i - 1` are and item `i` is. */
  lemma ReadablePrefixGrows(items: seq<Value>, key: string, i: nat)
    requires RecordsOnly(items) && i < |items|
    ensures (forall j :: 0 <= j < i + 1 ==> PatientIdReadable(Get(items[j].fields, key)))
        <==> (forall j :: 0 <= j < i ==> PatientIdReadable(Get(items[j].fields, key)))
             && PatientIdReadable(Get(items[i].fields, key))
  {
  }

  /**
   * The provisional-items case: each record's patient id must be non-null and an `int`
   * (taken as it is when it already is one, parsed from its text otherwise); the
   * comparison that follows compares the id with its own re-parsed text; and the list
   * must be non-empty. A failed item clears the verdict without stopping the loop.
   */
  method CheckProvisionalItems(provisionalItems: seq<Value>, key: string) returns (isValid: bool)
    requires RecordsOnly(provisionalItems)
    ensures isValid == ProvisionalPass(provisionalItems, key)
  {
    isValid := true;
    for i := 0 to |provisionalItems|
      invariant isValid <==> forall j :: 0 <= j < i ==> PatientIdReadable(Get(provisionalItems[j].fields, key))
    {
      var ok := PatientIdCheck(Get(provisionalItems[i].fields, key));
      if !ok {
        isValid := false;
      }
      ReadablePrefixGrows(provisionalItems, key, i);
    }
    if |provisionalItems| == 0 {
      isValid := false;
    }
  }
}
