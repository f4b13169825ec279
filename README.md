# Bridge lifecycle cost comparison — Dafny model

This project models the logic core of a small desktop tool. The tool compares the
lifecycle cost of a steel bridge with that of a concrete bridge. The model covers three parts:

- **The rate table** (`database.py`). It is a table keyed by material name, and each
  material holds seven rates: base, maintenance, repair, demolition, environmental,
  social and delay. `create_database` deletes every row and re-inserts the Steel and
  Concrete defaults. `update_database` is an upsert. `fetch_bridge_costs` reads every
  row. The model is a class `Database.RateTable` whose field `rows` is a
  `map<string, RateRecord>`. A map holds one record per key, just as the primary key
  on `material` does.
- **The cost comparison** (`gui.py`, `calculate_costs`). Four integer inputs go in:
  span length, width, traffic volume and design life. Each fetched row gives a vector
  of eight costs: construction, maintenance, repair, demolition, environmental, social,
  user, and the total. A scan keeps the Steel vector and the Concrete vector. If either
  is missing, the comparison is rejected and the result table is left as it was.
  `Costs.CostVector` is the formula. `Gui.SelectCosts` is the scan. The class
  `Gui.BridgeCostApp` holds the two result columns.
- **The rate-update dialog** (`gui.py`, `handle_accept`). Seven rate fields are parsed.
  If any of them fails, nothing is written.
- **Thousands separators** (`gui.py`, `format`, integer branch). An integer amount is
  written with commas between groups of three digits. `export_pdf` reads a cell back by
  deleting the commas and parsing the number. `Formatting.FormatRoundTrip` proves that,
  with exact integers, this read-back returns the amount. The source parses with
  `float()`, which is exact only up to 2^53 (see "## Left out").

Rates are exact `real`s and stand in for Python floats. The four inputs are `int`s.
Text conversion (`int()`, `float()`) is not modelled. Each field arrives as
`Some(value)` when it parsed and as `None` when it did not.

Two behaviours of the code are easy to miss:
- `create_database` is destructive. Every call discards earlier upserts and extra
  materials (database.py:23).
- A missing Steel or Concrete row rejects the whole comparison (gui.py:200-203). No
  partial comparison is shown.

## Model

| member | source | states |
|---|---|---|
| `Database.DefaultTableRows` | database.py:24-26 | the seeded table holds exactly two rows: Steel (3000, 50, 200, 100, 10, 0.5, 0.3) and Concrete (2500, 75, 150, 80, 8, 0.6, 0.2) |
| `Database.RateTable.constructor` | database.py:11-20 | opening the table keeps whatever rows an earlier run left |
| `Database.RateTable.CreateDatabase` | database.py:22-26 | afterwards the table is the two default rows, whatever it held before; so a second run changes nothing, and earlier customisations and extra materials are gone |
| `Database.RateTable.UpdateDatabase` | database.py:65-75 | the new table is the old one upserted with the given material and record |
| `Database.Upsert` | database.py:65-75 | after an upsert, the keys are the old keys plus the material; the material maps to the new record; every other material keeps its record |
| `Database.UpsertNewMaterial` | database.py:65-66 | upserting an absent material adds exactly one row, holding the given values |
| `Database.UpsertExistingMaterial` | database.py:67-74 | upserting a present material keeps the row count, and the row becomes the new record as a whole: old and new fields are never mixed |
| `Database.UpsertTwice` | database.py:67-74 | two upserts of one material leave only the latest values |
| `Database.UpsertsKeepLatest` | database.py:65-75 | after any sequence of upserts, each material has one record: its latest upserted record, or its original record if it was never upserted |
| `Database.RateTable.FetchBridgeCosts` | database.py:38-43 | the result lists the table: every row it returns is stored, every stored row appears, and no material appears twice; order is unspecified |
| `Database.ListingSize` | database.py:40-41 | a full read returns exactly as many rows as the table holds |
| `Database.ListingLookup` | database.py:40-41 | keying a full read by material gives each material's stored record, or nothing when the material is absent |
| `Database.LastRates` | gui.py:193-198 | a record the keep-last scan returns for a material is the record of some row naming that material |
| `Database.LastRatesFound` | gui.py:179-198 | the keep-last scan finds a record for a material exactly when some row names that material |
| `Database.LastRatesAt` | gui.py:193-198 | the record the scan keeps is the one from the last row naming the material |
| `Costs.CostVector` | gui.py:182-198 | a cost vector has one entry per label in `cost_components`, which is 8 entries |
| `Costs.TotalIsSum` | gui.py:190 | the total equals the sum of the seven other components |
| `Costs.ZeroDesignLife` | gui.py:183-189 | a design life of 0 zeroes maintenance, social and user cost; construction, repair, demolition and environmental cost are the same as for any other design life |
| `Costs.ZeroTraffic` | gui.py:188-189 | a traffic volume of 0 zeroes social and user cost; the five other components are the same as for any other traffic volume |
| `Costs.AreaDeterminesOneOffCosts` | gui.py:183-187 | span and width affect the costs only through their product: equal areas with equal design life give equal construction, maintenance, repair, demolition and environmental cost |
| `Costs.NonNegativeCosts` | gui.py:183-190 | non-negative inputs and rates give no negative component |
| `Costs.SteelScenario` | gui.py:183-190 | Steel defaults with a 30 × 10 deck, 5000 vehicles a day and a 50-year life give 900000, 750000, 60000, 30000, 3000, 125000, 75000 and a total of 1943000 |
| `Gui.ParseRates` | gui.py:60-72 | a record results exactly when all seven fields parse, and then its fields are the parsed values in column order |
| `Gui.DatabaseUpdateDialog.HandleAccept` | gui.py:57-82 | if every field parses, the material is upserted with exactly the parsed values and the dialog is accepted; if any field fails, the table and the dialog state are unchanged |
| `Gui.SelectCosts` | gui.py:176-198 | the kept Steel and Concrete vectors are the cost vectors of each material's last row, or empty when there is none; rows for other materials do not affect them |
| `Gui.SelectedVectorShape` | gui.py:193-201 | a kept vector is non-empty exactly when the material has a row, and then it has 8 entries |
| `Gui.BridgeCostApp.CalculateCosts` | gui.py:163-211 | any unparsable input gives an input error and the fetch is never reached; otherwise a table lacking Steel or Concrete gives a data error; in both error cases the result columns are unchanged; when both materials are present, the columns become their cost vectors for the parsed inputs |
| `Formatting.Group` | gui.py:11 | grouping a non-empty digit run gives a non-empty result that starts with the same digit |
| `Formatting.Digits` | gui.py:11 | an integer is written as a non-empty run of decimal digits, with no leading zero except for 0 itself |
| `Formatting.DigitsValueOfDigits` | gui.py:11 | the digits written for a number denote that number |
| `Formatting.GroupIsWellGrouped` | gui.py:11 | comma grouping gives one to three digits, then groups of a comma and three digits |
| `Formatting.StripCommasOfGroup` | gui.py:258 | deleting the commas from a grouped digit string gives the digits back |
| `Formatting.FormatInteger` | gui.py:11 | a formatted integer is non-empty and starts with a minus sign exactly when the integer is negative |
| `Formatting.StripCommas` | gui.py:258 | deleting commas leaves no comma, and leaves a comma-free text unchanged |
| `Formatting.ParseInteger` | gui.py:258 | a text containing a comma does not parse; a digit string parses as its value; a negative result needs a leading minus sign |
| `Formatting.CellValue` | gui.py:258 | a result-table cell holding a formatted integer reads back as that integer |
| `Formatting.FormatIntegerShape` | gui.py:11 | a formatted integer is an optional minus sign, then the digits of its magnitude grouped in threes; deleting its commas leaves exactly those digits |
| `Formatting.FormatRoundTrip` | gui.py:258 | deleting the commas from a formatted integer and parsing the result gives the integer back |

## Left out

- Qt widgets, layouts, message boxes, the row labels of the result table, the bar chart in `plot_graph`, and PNG export (gui.py:13-55, 84-159, 206-207, 213-241). These are user interface and library calls.
- PDF generation in `export_pdf` (gui.py:243-319), which includes page geometry and image scaling. Only its read-back of a cell, commas deleted and the number parsed (gui.py:258), is modelled, as `Formatting.CellValue`.
- SQLite itself: connecting, committing, closing, and the INTEGER and REAL column affinities. The table is an in-memory map, and every rate is a `real`.
- Floating point: every rate is an exact `real`, so the model has no rounding.
- `format`: only the integer branch is modelled. The `.2f` branch for non-integer amounts relies on IEEE float rounding and is not modelled. So the result columns hold numbers, not formatted text.
- `Gui.BridgeCostApp.CalculateCosts`: the `Displayed` outcome assumes `format` accepts every cost. With the seeded integer rates and `int()` inputs, construction, maintenance, repair, demolition and environmental cost are Python ints (gui.py:183-187). `int.is_integer` exists only from Python 3.12. On older interpreters `format` raises AttributeError at gui.py:210, after the table's row count was already set to 8 (gui.py:206). That failure is not modelled. The model also does not capture float overflow, because its vectors are exact. Python turns an int into a float before multiplying or adding it with a float, and raises OverflowError when the int is above about 1.8×10^308. For example, a traffic volume of 10^309 raises at gui.py:188. With span = width = 10^154 and a life of 1, the int sum of the first five costs exceeds the float range, and adding the float social cost raises at gui.py:190. Neither exception is caught in `calculate_costs` (gui.py:161-214), but the model returns `Displayed`. Smaller products that still leave the float range become `inf`, which the source displays as "inf"; the model gives the exact value.
- `Formatting.FormatRoundTrip`: the read-back at gui.py:258 uses `float()`, which rounds integers above 2^53. For example, "100,000,000,000,000,001" reads back as 1e17. The model parses to an exact integer, so its round trip holds for every integer. In the source it holds only up to 2^53.
- `Gui.ParseRates`: `float()` also accepts "nan" and "inf" (gui.py:62-68). A rate is an exact `real` here, so these values cannot occur. In the source, SQLite stores a NaN as NULL, and the next `calculate_costs` then raises TypeError for that row at the first of gui.py:183-189 that reads the NULL field, even for a material the selection would ignore. That failure is not modelled.
- Text-to-number conversion: `int()` and `float()` on field text are not modelled. Each field is given already parsed, as an `Option`. `Formatting.ParseInteger` accepts only an optional minus sign followed by digits. That is the only form `format` produces, and a small part of what `float()` accepts.
- `Gui.DatabaseUpdateDialog.HandleAccept`: the error path when `update_database` raises (gui.py:79-81) is not modelled, because the in-memory table cannot fail. The seven sequential `float()` calls are modelled as one loop over the seven fields in column order.
- main.py calls `create_database` when the application starts. Start-up is modelled only as the `Database.RateTable.CreateDatabase` method itself.
