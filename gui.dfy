/** The decision logic of gui.py without its widgets: the all-or-nothing
    parse guard of DatabaseUpdateDialog.handle_accept, and the fetch,
    per-row cost calculation, Steel/Concrete selection and output of
    BridgeCostApp.calculate_costs. A text field that `float()` or `int()`
    accepted arrives as `Some(value)`, one it rejected as `None`. */
module Gui {
  import opened Wrappers
  import opened Database
  import opened Costs

  /** The dialog's seven rate fields, in column order. */
  const RateFieldCount: nat := 7

  function RateList(r: RateRecord): (s: seq<real>)
    ensures |s| == RateFieldCount
  {
    [r.baseRate, r.maintenanceRate, r.repairRate, r.demolitionRate,
     r.environmentalFactor, r.socialFactor, r.delayFactor]
  }

  function FromList(s: seq<real>): (r: RateRecord)
    requires |s| == RateFieldCount
    ensures RateList(r) == s
  {
    RateRecord(s[0], s[1], s[2], s[3], s[4], s[5], s[6])
  }

  predicate AllParsed<T>(fields: seq<Option<T>>)
  {
    forall i :: 0 <= i < |fields| ==> fields[i].Some?
  }

  /** The seven `float()` conversions of handle_accept, in field order; the
      first one that fails abandons the rest. */
  method ParseRates(fields: seq<Option<real>>) returns (rates: Option<RateRecord>)
    requires |fields| == RateFieldCount
    ensures rates.Some? <==> AllParsed(fields)
    ensures rates.Some? ==> forall i :: 0 <= i < |fields| ==> fields[i] == Some(RateList(rates.value)[i])
  {
    var values: seq<real> := [];
    var i := 0;
    while i < |fields|
      invariant 0 <= i <= |fields|
      invariant |values| == i
      invariant forall k :: 0 <= k < i ==> fields[k] == Some(values[k])
    {
      if fields[i].None? {
        return None;
      }
      values := values + [fields[i].value];
      i := i + 1;
    }
    rates := Some(FromList(values));
  }

  /** The keep-last scan of calculate_costs over one material: the cost
      vector of the last row for `material`, or the empty list. */
  function VectorFor(inp: CostInputs, rates: Option<RateRecord>): seq<real>
  {
    if rates.Some? then CostVector(inp, rates.value) else []
  }

  /** The loop of calculate_costs: compute every row's costs, keep the
      vectors of the rows named Steel and Concrete, ignore the others. */
  method SelectCosts(inp: CostInputs, data: seq<Row>) returns (steel: seq<real>, concrete: seq<real>)
    ensures steel == VectorFor(inp, LastRates(data, Steel))
    ensures concrete == VectorFor(inp, LastRates(data, Concrete))
  {
    steel, concrete := [], [];
    for i := 0 to |data|
      invariant steel == VectorFor(inp, LastRates(data[..i], Steel))
      invariant concrete == VectorFor(inp, LastRates(data[..i], Concrete))
    {
      var row := data[i];
      var costs := CostVector(inp, row.rates);
      assert data[..i + 1][..i] == data[..i];
      if row.material == Steel {
        steel := costs;
      } else if row.material == Concrete {
        concrete := costs;
      }
    }
    assert data[..|data|] == data;
  }

  /** A vector is kept exactly when the material has a row, and a kept
      vector has one entry per cost component. */
  lemma SelectedVectorShape(inp: CostInputs, data: seq<Row>, material: string)
    ensures VectorFor(inp, LastRates(data, material)) != [] <==>
            exists i :: 0 <= i < |data| && data[i].material == material
    ensures VectorFor(inp, LastRates(data, material)) != [] ==>
            |VectorFor(inp, LastRates(data, material))| == |CostComponents|
  {
  }

  /** Why calculate_costs stopped, or that it filled the result table. */
  datatype Outcome = InputError | DataError | Displayed

  class DatabaseUpdateDialog {
    const db: RateTable
    /** Set by `self.accept()`: the dialog closed with its update done. */
    var accepted: bool

    constructor (db: RateTable)
      ensures this.db == db && !accepted
    {
      this.db := db;
      accepted := false;
    }

    /** handle_accept: upsert `material` with the seven parsed rates, or,
        when any rate field fails to parse, change nothing. */
    method HandleAccept(material: string, fields: seq<Option<real>>)
      requires |fields| == RateFieldCount
      modifies this, db
      ensures AllParsed(fields) ==>
                && accepted
                && material in db.rows
                && (forall i :: 0 <= i < |fields| ==> fields[i] == Some(RateList(db.rows[material])[i]))
                && db.rows == Upsert(old(db.rows), material, db.rows[material])
      ensures !AllParsed(fields) ==> accepted == old(accepted) && db.rows == old(db.rows)
    {
      var rates := ParseRates(fields);
      if rates.None? {
        return;
      }
      db.UpdateDatabase(material, rates.value);
      accepted := true;
    }
  }

  class BridgeCostApp {
    const db: RateTable
    /** The two columns of the result table, one entry per cost component. */
    var steelColumn: seq<real>
    var concreteColumn: seq<real>

    constructor (db: RateTable)
      ensures this.db == db && steelColumn == [] && concreteColumn == []
    {
      this.db := db;
      steelColumn, concreteColumn := [], [];
    }

    /** calculate_costs: parse the four inputs, fetch every row, and fill
        the result table with the Steel and Concrete vectors; a non-integer
        input stops before the fetch, a missing material before the table
        is written. */
    method CalculateCosts(span: Option<int>, width: Option<int>, traffic: Option<int>, life: Option<int>)
      returns (outcome: Outcome)
      modifies this
      ensures outcome == InputError <==> (span.None? || width.None? || traffic.None? || life.None?)
      ensures outcome == DataError <==>
                outcome != InputError && (Steel !in db.rows || Concrete !in db.rows)
      ensures outcome == Displayed ==>
                var inp := CostInputs(span.value, width.value, traffic.value, life.value);
                && steelColumn == CostVector(inp, db.rows[Steel])
                && concreteColumn == CostVector(inp, db.rows[Concrete])
      ensures outcome != Displayed ==>
                steelColumn == old(steelColumn) && concreteColumn == old(concreteColumn)
    {
      if span.None? || width.None? || traffic.None? || life.None? {
        return InputError;
      }
      var inp := CostInputs(span.value, width.value, traffic.value, life.value);
      var data := db.FetchBridgeCosts();
      var steel, concrete := SelectCosts(inp, data);
      ListingLookup(data, db.rows, Steel);
      ListingLookup(data, db.rows, Concrete);
      if steel == [] || concrete == [] {
        return DataError;
      }
      steelColumn, concreteColumn := steel, concrete;
      outcome := Displayed;
    }
  }
}
