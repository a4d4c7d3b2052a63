// The company table as the startup migration sees it: a set of column names
// and rows keyed by the integer primary key, and the migration itself as a
// function from the table found on disk to the table left behind.

module Schema {
  import opened Common
  import Provinces

  /** A row maps each column name to its cell; the primary key is the row's key in the table. */
  type Row = map<string, Cell>

  /** A table: its column names besides the primary key `id`, and its rows by id. */
  datatype Table = Table(columns: set<string>, rows: map<int, Row>)

  /** Every row has a cell for every column and for nothing else. */
  predicate WellFormed(t: Table)
  {
    forall id :: id in t.rows ==> t.rows[id].Keys == t.columns
  }

  /** The columns of the table the application creates on a first run. */
  const CurrentColumns: set<string> :=
    {"nombre", "sector", "provincia", "comunidad", "latitud", "longitud", "link_empleados"}

  /** `ALTER TABLE ... ADD COLUMN c`: every row gets a NULL cell for the new column. */
  function AddColumn(t: Table, c: string): (r: Table)
    requires c !in t.columns
    ensures r.columns == t.columns + {c} && r.rows.Keys == t.rows.Keys
    ensures WellFormed(t) ==> WellFormed(r)
  {
    Table(t.columns + {c}, map id | id in t.rows :: t.rows[id][c := None])
  }

  /** `UPDATE empresas SET dst = src`: in every row the cell of `dst` becomes that of `src`. */
  function CopyColumn(t: Table, src: string, dst: string): (r: Table)
    requires WellFormed(t) && src in t.columns && dst in t.columns
    ensures WellFormed(r) && r.columns == t.columns && r.rows.Keys == t.rows.Keys
    ensures forall id :: id in r.rows ==> r.rows[id][dst] == t.rows[id][src]
  {
    Table(t.columns, map id | id in t.rows :: t.rows[id][dst := t.rows[id][src]])
  }

  /** The region the lookup gives for the text in a cell, as a cell; NULL
      when the cell holds no text or the lookup gives no region. */
  function RegionCell(c: Cell): (r: Cell)
    ensures r.Some? <==> c.Some? && c.value.Text? && Provinces.RegionFor(c.value.s).Some?
    ensures r.Some? ==> r == TextCell(Provinces.RegionFor(c.value.s).value)
  {
    match c
    case Some(Text(p)) =>
      (match Provinces.RegionFor(p)
       case Some(reg) => TextCell(reg)
       case None => None)
    case _ => None
  }

  /** The per-row region fill of the migration: when the province cell names a
      province with a region, the region cell is set to it; otherwise the row
      is left alone. */
  function FillRegionRow(row: Row): Row
    requires "provincia" in row && "comunidad" in row
  {
    var reg := RegionCell(row["provincia"]);
    if reg.Some? then row["comunidad" := reg] else row
  }

  /** The fill applied to every row. */
  function FillRegions(t: Table): (r: Table)
    requires WellFormed(t) && "provincia" in t.columns && "comunidad" in t.columns
    ensures WellFormed(r) && r.columns == t.columns && r.rows.Keys == t.rows.Keys
  {
    Table(t.columns, map id | id in t.rows :: FillRegionRow(t.rows[id]))
  }

  /** The outcome of a startup: the table left on disk, and whether the run
      completed (`false` when an `ALTER TABLE` failed on a duplicate column). */
  datatype Migration = Migration(table: Table, ok: bool)

  /** The legacy guard, evaluated on the column list read once at startup. */
  predicate IsLegacy(columns: set<string>)
  {
    "ciudad" in columns && "provincia" !in columns
  }

  /** Startup schema handling. With no table, the full current schema is
      created. Otherwise, on the columns read once at the start: a legacy
      table (locality column `ciudad`, no `provincia`) gets `provincia` and
      `comunidad`, `provincia` copied from `ciudad` and `comunidad` filled from
      the province table; then `latitud` and `longitud` are each added when
      missing. Adding `comunidad` to a table that already has it fails, after
      `provincia` was added; that run stops there. */
  function Migrate(disk: Option<Table>): (m: Migration)
    requires disk.Some? ==> WellFormed(disk.value)
    ensures !m.ok <==> disk.Some? && IsLegacy(disk.value.columns) && "comunidad" in disk.value.columns
    ensures m.table.rows.Keys == if disk.Some? then disk.value.rows.Keys else {}
  {
    match disk
    case None => Migration(Table(CurrentColumns, map[]), true)
    case Some(t) =>
      var cols := t.columns;
      if IsLegacy(cols) && "comunidad" in cols then
        Migration(AddColumn(t, "provincia"), false)
      else
        var t1 := if IsLegacy(cols) then LegacyTable(t) else t;
        var t2 := if "latitud" !in cols then AddColumn(t1, "latitud") else t1;
        var t3 := if "longitud" !in cols then AddColumn(t2, "longitud") else t2;
        Migration(t3, true)
  }

  /** The legacy step on a whole table: add `provincia` and `comunidad`,
      copy `ciudad` into `provincia`, then fill the regions. */
  function LegacyTable(t: Table): (r: Table)
    requires WellFormed(t) && IsLegacy(t.columns) && "comunidad" !in t.columns
    ensures WellFormed(r) && r.columns == t.columns + {"provincia", "comunidad"} && r.rows.Keys == t.rows.Keys
  {
    FillRegions(CopyColumn(AddColumn(AddColumn(t, "provincia"), "comunidad"), "ciudad", "provincia"))
  }

  /** The columns a completed startup adds to an existing table. */
  function AddedColumns(cols: set<string>): set<string>
  {
    (if IsLegacy(cols) then {"provincia", "comunidad"} else {})
    + (if "latitud" !in cols then {"latitud"} else {})
    + (if "longitud" !in cols then {"longitud"} else {})
  }

  /** A row as a completed startup leaves it, described cell by cell: every
      old cell is kept; on a legacy table `provincia` holds the old `ciudad`
      and `comunidad` the region looked up for it; every other added cell is NULL. */
  function MigratedRow(row: Row, cols: set<string>): Row
    requires "ciudad" in cols ==> "ciudad" in row
  {
    map c | c in row.Keys + AddedColumns(cols) ::
      if c in row then row[c]
      else if IsLegacy(cols) && c == "provincia" then row["ciudad"]
      else if IsLegacy(cols) && c == "comunidad" then RegionCell(row["ciudad"])
      else None
  }

  /** The legacy step on one row: NULL `provincia` and `comunidad` cells,
      then the copy, then the region fill. */
  function LegacyRow(row: Row): Row
    requires "ciudad" in row
  {
    FillRegionRow(row["provincia" := None]["comunidad" := None]["provincia" := row["ciudad"]])
  }

  /** No startup adds or removes a row. */
  lemma MigrateKeepsIds(t: Table)
    requires WellFormed(t)
    ensures Migrate(Some(t)).table.rows.Keys == t.rows.Keys
  {
    var cols := t.columns;
    if IsLegacy(cols) && "comunidad" !in cols {
      var a := AddColumn(AddColumn(t, "provincia"), "comunidad");
      assert a.rows.Keys == t.rows.Keys;
      assert CopyColumn(a, "ciudad", "provincia").rows.Keys == t.rows.Keys;
    }
  }

  /** Where the migration's table steps leave one row, step by step. */
  lemma MigrateRowSteps(t: Table, id: int)
    requires WellFormed(t) && id in t.rows
    requires !(IsLegacy(t.columns) && "comunidad" in t.columns)
    ensures var cols, row := t.columns, t.rows[id];
      var r1 := if IsLegacy(cols) then LegacyRow(row) else row;
      var r2 := if "latitud" !in cols then r1["latitud" := None] else r1;
      var r3 := if "longitud" !in cols then r2["longitud" := None] else r2;
      Migrate(Some(t)).table.rows[id] == r3
  {
    var cols, row := t.columns, t.rows[id];
    var t1 := if IsLegacy(cols) then LegacyTable(t) else t;
    var t2 := if "latitud" !in cols then AddColumn(t1, "latitud") else t1;
    var t3 := if "longitud" !in cols then AddColumn(t2, "longitud") else t2;
    assert Migrate(Some(t)).table == t3;
    var r1 := if IsLegacy(cols) then LegacyRow(row) else row;
    if IsLegacy(cols) {
      LegacyTableRow(t, id);
    }
    AddMissingRow(t1, cols, "latitud", id, r1);
    AddMissingRow(t2, cols, "longitud", id, if "latitud" !in cols then r1["latitud" := None] else r1);
  }

  /** The guarded `ALTER TABLE ADD COLUMN` of startup, seen on one row. */
  lemma AddMissingRow(t: Table, cols: set<string>, c: string, id: int, r: Row)
    requires c !in cols ==> c !in t.columns
    requires id in t.rows && t.rows[id] == r
    ensures var t' := if c !in cols then AddColumn(t, c) else t;
      id in t'.rows && t'.rows[id] == if c !in cols then r[c := None] else r
  {
    if c !in cols {
      AddColumnRow(t, c, id);
    }
  }

  /** `ALTER TABLE ADD COLUMN` gives each row a NULL cell in the new column. */
  lemma AddColumnRow(t: Table, c: string, id: int)
    requires c !in t.columns && id in t.rows
    ensures id in AddColumn(t, c).rows && AddColumn(t, c).rows[id] == t.rows[id][c := None]
  {
  }

  /** The legacy step on a whole table is the legacy step on each row. */
  lemma LegacyTableRow(t: Table, id: int)
    requires WellFormed(t) && IsLegacy(t.columns) && "comunidad" !in t.columns && id in t.rows
    ensures LegacyTable(t).rows[id] == LegacyRow(t.rows[id])
  {
    var a := AddColumn(AddColumn(t, "provincia"), "comunidad");
    assert a.rows[id] == t.rows[id]["provincia" := None]["comunidad" := None];
    var b := CopyColumn(a, "ciudad", "provincia");
    assert b.rows[id] == a.rows[id]["provincia" := t.rows[id]["ciudad"]];
  }

  /** The row steps compose to the cell-by-cell description. */
  lemma RowStepsDescribed(row: Row, cols: set<string>)
    requires row.Keys == cols
    requires !(IsLegacy(cols) && "comunidad" in cols)
    ensures var r1 := if IsLegacy(cols) then LegacyRow(row) else row;
      var r2 := if "latitud" !in cols then r1["latitud" := None] else r1;
      var r3 := if "longitud" !in cols then r2["longitud" := None] else r2;
      r3 == MigratedRow(row, cols)
  {
    var r1 := if IsLegacy(cols) then LegacyRow(row) else row;
    var r2 := if "latitud" !in cols then r1["latitud" := None] else r1;
    var r3 := if "longitud" !in cols then r2["longitud" := None] else r2;
    var want := MigratedRow(row, cols);
    if IsLegacy(cols) {
      var base := row["provincia" := None]["comunidad" := None]["provincia" := row["ciudad"]];
      assert r1 == base["comunidad" := RegionCell(row["ciudad"])];
    }
    assert r1.Keys == row.Keys + (if IsLegacy(cols) then {"provincia", "comunidad"} else {});
    assert r3.Keys == want.Keys;
    forall c | c in want
      ensures r3[c] == want[c]
    {
      if c in row {
        assert r1[c] == row[c];
      }
    }
  }

  /** The step-by-step migration equals the cell-by-cell description: a
      completed run adds exactly the guarded columns, keeps every row id and
      every pre-existing cell, copies `ciudad` into `provincia`, derives
      `comunidad` from the province table and leaves every other new cell NULL. */
  lemma MigrateDescribed(t: Table)
    requires WellFormed(t)
    requires !(IsLegacy(t.columns) && "comunidad" in t.columns)
    ensures Migrate(Some(t)).ok
    ensures Migrate(Some(t)).table.columns == t.columns + AddedColumns(t.columns)
    ensures Migrate(Some(t)).table.rows.Keys == t.rows.Keys
    ensures forall id :: id in t.rows ==> Migrate(Some(t)).table.rows[id] == MigratedRow(t.rows[id], t.columns)
  {
    var cols := t.columns;
    forall id | id in t.rows
      ensures Migrate(Some(t)).table.rows[id] == MigratedRow(t.rows[id], cols)
    {
      MigrateRowSteps(t, id);
      RowStepsDescribed(t.rows[id], cols);
    }
    MigrateKeepsIds(t);
  }

  /** Every startup leaves a table whose rows have exactly its columns. */
  lemma MigrateWellFormed(disk: Option<Table>)
    requires disk.Some? ==> WellFormed(disk.value)
    ensures WellFormed(Migrate(disk).table)
  {
    if disk.Some? {
      var t := disk.value;
      if !(IsLegacy(t.columns) && "comunidad" in t.columns) {
        MigrateDescribed(t);
      }
    }
  }

  /** On a legacy table every row ends with `provincia` equal to its old
      `ciudad`, and `comunidad` equal to the region of that province when the
      province table has one, NULL otherwise (for "Otra" and unknown names). */
  lemma MigrateLegacy(t: Table, id: int)
    requires WellFormed(t) && IsLegacy(t.columns) && "comunidad" !in t.columns
    requires id in t.rows
    ensures Migrate(Some(t)).ok
    ensures id in Migrate(Some(t)).table.rows
    ensures {"ciudad", "provincia", "comunidad"} <= Migrate(Some(t)).table.rows[id].Keys
    ensures Migrate(Some(t)).table.rows[id]["provincia"] == t.rows[id]["ciudad"]
    ensures Migrate(Some(t)).table.rows[id]["comunidad"] == RegionCell(t.rows[id]["ciudad"])
    ensures Migrate(Some(t)).table.rows[id]["ciudad"] == t.rows[id]["ciudad"]
  {
    MigrateDescribed(t);
    LegacyCells(t.rows[id], t.columns);
  }

  /** The described row of a legacy table holds the old `ciudad`, a
      `provincia` equal to it and the region of that province. */
  lemma LegacyCells(row: Row, cols: set<string>)
    requires row.Keys == cols && IsLegacy(cols) && "comunidad" !in cols
    ensures var m := MigratedRow(row, cols);
      && {"ciudad", "provincia", "comunidad"} <= m.Keys
      && m["provincia"] == row["ciudad"]
      && m["comunidad"] == RegionCell(row["ciudad"])
      && m["ciudad"] == row["ciudad"]
  {
    assert {"provincia", "comunidad"} <= AddedColumns(cols);
  }

  /** Startup is idempotent: a second run on what a completed run left
      changes neither the columns nor any row, and completes. */
  lemma MigrateIdempotent(disk: Option<Table>)
    requires disk.Some? ==> WellFormed(disk.value)
    requires Migrate(disk).ok
    ensures WellFormed(Migrate(disk).table)
    ensures Migrate(Some(Migrate(disk).table)) == Migration(Migrate(disk).table, true)
  {
    MigrateWellFormed(disk);
    var m := Migrate(disk).table;
    if disk.Some? {
      MigrateDescribed(disk.value);
      assert !IsLegacy(m.columns);
    }
  }

  /** A table with `ciudad` and `comunidad` but no `provincia` makes the
      second `ALTER TABLE` fail: the run stops with a NULL `provincia` column
      added and nothing else changed. The next run completes, but since
      `provincia` now exists it copies nothing: `provincia` stays NULL and
      `comunidad` keeps its old cells. */
  lemma MigrateDuplicateRegionColumn(t: Table, id: int)
    requires WellFormed(t) && IsLegacy(t.columns) && "comunidad" in t.columns
    requires id in t.rows
    ensures !Migrate(Some(t)).ok
    ensures Migrate(Some(t)).table.columns == t.columns + {"provincia"}
    ensures Migrate(Some(t)).table.rows.Keys == t.rows.Keys
    ensures Migrate(Some(t)).table.rows[id] == t.rows[id]["provincia" := None]
    ensures WellFormed(Migrate(Some(t)).table)
    ensures var again := Migrate(Some(Migrate(Some(t)).table));
      && again.ok
      && again.table.rows[id]["provincia"] == None
      && again.table.rows[id]["comunidad"] == t.rows[id]["comunidad"]
  {
    var m := Migrate(Some(t)).table;
    assert WellFormed(m);
    MigrateDescribed(m);
  }

  /** Two legacy rows: a locality that is a province of the table gets its
      region; an unknown locality keeps a NULL region. */
  lemma MigrateLegacyExamples(t: Table, known: Row, unknown: Row)
    requires known == map["nombre" := TextCell("Acme"), "ciudad" := TextCell("Madrid")]
    requires unknown == map["nombre" := TextCell("Zeta"), "ciudad" := TextCell("Nowhereville")]
    requires t == Table({"nombre", "ciudad"}, map[1 := known, 2 := unknown])
    ensures Migrate(Some(t)).ok && 1 in Migrate(Some(t)).table.rows && 2 in Migrate(Some(t)).table.rows
    ensures {"provincia", "comunidad"} <= Migrate(Some(t)).table.rows[1].Keys
    ensures {"provincia", "comunidad"} <= Migrate(Some(t)).table.rows[2].Keys
    ensures Migrate(Some(t)).table.rows[1]["provincia"] == TextCell("Madrid")
    ensures Migrate(Some(t)).table.rows[1]["comunidad"] == TextCell("Madrid")
    ensures Migrate(Some(t)).table.rows[2]["provincia"] == TextCell("Nowhereville")
    ensures Migrate(Some(t)).table.rows[2]["comunidad"] == None
  {
    assert known.Keys == t.columns && unknown.Keys == t.columns;
    assert WellFormed(t) && IsLegacy(t.columns);
    assert t.rows[1]["ciudad"] == TextCell("Madrid") && t.rows[2]["ciudad"] == TextCell("Nowhereville");
    RegionCellExamples();
    MigrateLegacy(t, 1);
    MigrateLegacy(t, 2);
  }

  /** The region cells of a known province and of an unknown town. */
  lemma RegionCellExamples()
    ensures RegionCell(TextCell("Madrid")) == TextCell("Madrid")
    ensures RegionCell(TextCell("Nowhereville")) == None
  {
    assert Provinces.RegionFor("Madrid") == Some("Madrid");
    assert Provinces.RegionFor("Nowhereville") == None;
  }

}
