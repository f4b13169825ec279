/** The persisted `bridge_costs` table of database.py, modelled in memory.
    The table is keyed by material name (its primary key) and each key maps
    to the seven rates of that material. */
module Database {
  import opened Wrappers

  /** The seven rate columns of one row, in column order. */
  datatype RateRecord = RateRecord(
    baseRate: real,
    maintenanceRate: real,
    repairRate: real,
    demolitionRate: real,
    environmentalFactor: real,
    socialFactor: real,
    delayFactor: real)

  /** One row of the table as a full read returns it, and equally one
      upsert request: the key and the rates stored under it. */
  datatype Row = Row(material: string, rates: RateRecord)

  /** The table: at most one record per material, by construction. */
  type Table = map<string, RateRecord>

  const Steel: string := "Steel"
  const Concrete: string := "Concrete"

  const SteelDefaults: RateRecord := RateRecord(3000.0, 50.0, 200.0, 100.0, 10.0, 0.5, 0.3)
  const ConcreteDefaults: RateRecord := RateRecord(2500.0, 75.0, 150.0, 80.0, 8.0, 0.6, 0.2)

  /** The two rows the reseed inserts. */
  function DefaultTable(): Table
  {
    map[Steel := SteelDefaults, Concrete := ConcreteDefaults]
  }

  lemma DefaultTableRows()
    ensures DefaultTable().Keys == {Steel, Concrete}
    ensures |DefaultTable()| == 2
    ensures DefaultTable()[Steel] == SteelDefaults
    ensures DefaultTable()[Concrete] == ConcreteDefaults
  {
  }

  function Lookup(t: Table, material: string): (r: Option<RateRecord>)
    ensures r.Some? <==> material in t
    ensures r.Some? ==> r.value == t[material]
  {
    if material in t then Some(t[material]) else None
  }

  /** INSERT ... ON CONFLICT(material) DO UPDATE: the row for `material` becomes
      exactly `r`, whether or not it existed, and no other row is touched. */
  function Upsert(t: Table, material: string, r: RateRecord): (t': Table)
    ensures t'.Keys == t.Keys + {material}
    ensures t'[material] == r
    ensures forall m :: m in t && m != material ==> t'[m] == t[m]
  {
    t[material := r]
  }

  /** An upsert of a new material adds exactly one row. */
  lemma UpsertNewMaterial(t: Table, material: string, r: RateRecord)
    requires material !in t
    ensures |Upsert(t, material, r)| == |t| + 1
    ensures Lookup(Upsert(t, material, r), material) == Some(r)
  {
  }

  /** An upsert of a stored material keeps the row count and replaces the
      whole record: none of the old seven fields survives unless it equals
      the new one. */
  lemma UpsertExistingMaterial(t: Table, material: string, r: RateRecord)
    requires material in t
    ensures |Upsert(t, material, r)| == |t|
    ensures Upsert(t, material, r)[material] == r
  {
  }

  /** Upserting the same material twice leaves the latest values only. */
  lemma UpsertTwice(t: Table, material: string, r1: RateRecord, r2: RateRecord)
    ensures Upsert(Upsert(t, material, r1), material, r2) == Upsert(t, material, r2)
  {
  }

  /** The rates of the last row for `material` in `rows`, if any. It serves
      two purposes: it is the record the keep-last selection scan of
      calculate_costs keeps, and it is the latest upsert of a material in
      UpsertsKeepLatest. So it lives here, beside `Row`. */
  function LastRates(rows: seq<Row>, material: string): (r: Option<RateRecord>)
    ensures r.Some? ==> exists i :: 0 <= i < |rows| && rows[i] == Row(material, r.value)
  {
    if rows == [] then None
    else if rows[|rows| - 1].material == material then Some(rows[|rows| - 1].rates)
    else LastRates(rows[..|rows| - 1], material)
  }

  lemma {:induction false} LastRatesFound(rows: seq<Row>, material: string)
    ensures LastRates(rows, material).Some? <==>
            exists i :: 0 <= i < |rows| && rows[i].material == material
  {
    if rows != [] {
      var front := rows[..|rows| - 1];
      LastRatesFound(front, material);
      if rows[|rows| - 1].material != material {
        if exists i :: 0 <= i < |rows| && rows[i].material == material {
          var i :| 0 <= i < |rows| && rows[i].material == material;
          assert front[i].material == material;
        }
      }
      if exists i :: 0 <= i < |front| && front[i].material == material {
        var i :| 0 <= i < |front| && front[i].material == material;
        assert rows[i].material == material;
      }
    }
  }

  lemma {:induction false} LastRatesAt(rows: seq<Row>, material: string, i: nat)
    requires i < |rows| && rows[i].material == material
    requires forall j :: i < j < |rows| ==> rows[j].material != material
    ensures LastRates(rows, material) == Some(rows[i].rates)
  {
    if i < |rows| - 1 {
      var front := rows[..|rows| - 1];
      LastRatesAt(front, material, i);
    }
  }

  /** A sequence of upserts applied in order. */
  function ApplyUpserts(t: Table, ops: seq<Row>): Table
  {
    if ops == [] then t
    else
      var last := ops[|ops| - 1];
      Upsert(ApplyUpserts(t, ops[..|ops| - 1]), last.material, last.rates)
  }

  /** After any sequence of upserts each material has one record: the one
      of its latest upsert, or its original record if it was never upserted. */
  lemma {:induction false} UpsertsKeepLatest(t: Table, ops: seq<Row>, material: string)
    ensures Lookup(ApplyUpserts(t, ops), material) ==
            if LastRates(ops, material).Some? then LastRates(ops, material) else Lookup(t, material)
  {
    if ops != [] {
      UpsertsKeepLatest(t, ops[..|ops| - 1], material);
    }
  }

  /** `data` lists the table `t`: every row is stored, every stored row
      appears, and no material appears twice. */
  ghost predicate ListsTable(data: seq<Row>, t: Table)
  {
    && (forall i :: 0 <= i < |data| ==> data[i].material in t && t[data[i].material] == data[i].rates)
    && (forall i, j :: 0 <= i < j < |data| ==> data[i].material != data[j].material)
    && (forall m :: m in t ==> exists i :: 0 <= i < |data| && data[i].material == m)
  }

  /** A listing holds as many rows as the table. */
  lemma {:induction false} ListingSize(data: seq<Row>, t: Table)
    requires ListsTable(data, t)
    ensures |data| == |t|
  {
    if data == [] {
      assert t.Keys == {};
    } else {
      var last := data[|data| - 1];
      var front := data[..|data| - 1];
      var rest := t - {last.material};
      forall m | m in rest
        ensures exists i :: 0 <= i < |front| && front[i].material == m
      {
        var i :| 0 <= i < |data| && data[i].material == m;
        assert i < |front|;
        assert front[i].material == m;
      }
      assert ListsTable(front, rest);
      ListingSize(front, rest);
      assert rest.Keys == t.Keys - {last.material};
    }
  }

  /** Keying a listing by material gives back the table. */
  lemma ListingLookup(data: seq<Row>, t: Table, material: string)
    requires ListsTable(data, t)
    ensures LastRates(data, material) == Lookup(t, material)
  {
    LastRatesFound(data, material);
    if material in t {
      var i :| 0 <= i < |data| && data[i].material == material;
      LastRatesAt(data, material, i);
    }
  }

  /** The `bridge_costs` table as the program sees it between calls. */
  class RateTable {
    var rows: Table

    /** Opening the table: it holds whatever an earlier run left in it. */
    constructor (existing: Table)
      ensures rows == existing
    {
      rows := existing;
    }

    /** create_database: delete every row, then insert the Steel and
        Concrete defaults. The result does not depend on the old rows. */
    method CreateDatabase()
      modifies this
      ensures rows == DefaultTable()
    {
      rows := map[];
      rows := rows[Steel := SteelDefaults];
      rows := rows[Concrete := ConcreteDefaults];
    }

    /** fetch_bridge_costs: every stored row exactly once, in an order the
        caller may not rely on. */
    method FetchBridgeCosts() returns (data: seq<Row>)
      ensures ListsTable(data, rows)
    {
      data := [];
      var pending := rows.Keys;
      while pending != {}
        invariant pending <= rows.Keys
        invariant forall i :: 0 <= i < |data| ==>
          data[i].material in rows && rows[data[i].material] == data[i].rates && data[i].material !in pending
        invariant forall i, j :: 0 <= i < j < |data| ==> data[i].material != data[j].material
        invariant forall m :: m in rows && m !in pending ==> exists i :: 0 <= i < |data| && data[i].material == m
        decreases pending
      {
        var m :| m in pending;
        ghost var before := data;
        data := data + [Row(m, rows[m])];
        pending := pending - {m};
        forall m' | m' in rows && m' !in pending
          ensures exists i :: 0 <= i < |data| && data[i].material == m'
        {
          if m' == m {
            assert data[|data| - 1].material == m';
          } else {
            var i :| 0 <= i < |before| && before[i].material == m';
            assert data[i].material == m';
          }
        }
      }
    }

    /** update_database: upsert one material's seven rates. */
    method UpdateDatabase(material: string, r: RateRecord)
      modifies this
      ensures rows == Upsert(old(rows), material, r)
    {
      rows := rows[material := r];
    }
  }
}
