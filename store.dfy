// The company record store: the `empresas` table on disk with its startup
// migration and its four operations, and the form actions that call them.

module Store {
  import opened Common
  import opened Schema
  import opened Ordering
  import Forms

  /** A company as `get_all` returns it: the id and the seven selected cells. */
  datatype Empresa = Empresa(
    id: int, nombre: Cell, sector: Cell, provincia: Cell, comunidad: Cell,
    latitud: Cell, longitud: Cell, link: Cell)

  /** The seven values the form passes to an insert or an update. */
  datatype Fields = Fields(
    nombre: string, sector: string, provincia: string, comunidad: string,
    lat: real, lon: real, link: string)

  /** The cell of a row for a column, NULL when the row has no such column. */
  function Get(row: Row, c: string): Cell
  {
    if c in row then row[c] else None
  }

  /** The record `get_all` builds from a stored row. */
  function RecordOf(id: int, row: Row): (r: Empresa)
    ensures r.id == id
    ensures CurrentColumns <= row.Keys ==>
      [r.nombre, r.sector, r.provincia, r.comunidad, r.latitud, r.longitud, r.link] ==
      [row["nombre"], row["sector"], row["provincia"], row["comunidad"], row["latitud"], row["longitud"], row["link_empleados"]]
  {
    Empresa(id, Get(row, "nombre"), Get(row, "sector"), Get(row, "provincia"), Get(row, "comunidad"),
      Get(row, "latitud"), Get(row, "longitud"), Get(row, "link_empleados"))
  }

  /** The cell the form's values give a column of the current schema. */
  function FieldCell(f: Fields, c: string): Cell
  {
    match c
    case "nombre" => TextCell(f.nombre)
    case "sector" => TextCell(f.sector)
    case "provincia" => TextCell(f.provincia)
    case "comunidad" => TextCell(f.comunidad)
    case "latitud" => NumCell(f.lat)
    case "longitud" => NumCell(f.lon)
    case "link_empleados" => TextCell(f.link)
    case _ => None
  }

  /** The record of a company whose stored cells are exactly the form's values. */
  function FromFields(id: int, f: Fields): Empresa
  {
    Empresa(id, TextCell(f.nombre), TextCell(f.sector), TextCell(f.provincia), TextCell(f.comunidad),
      NumCell(f.lat), NumCell(f.lon), TextCell(f.link))
  }

  /** The row an insert stores: the form's values in the seven named columns, NULL elsewhere. */
  function NewRow(cols: set<string>, f: Fields): (r: Row)
    ensures r.Keys == cols
    ensures forall c :: c in cols && c !in CurrentColumns ==> r[c] == None
  {
    map c | c in cols :: if c in CurrentColumns then FieldCell(f, c) else None
  }

  /** The row an update leaves: the seven named columns overwritten, every other cell kept. */
  function Overwrite(row: Row, f: Fields): (r: Row)
    ensures r.Keys == row.Keys
    ensures forall c :: c in row && c !in CurrentColumns ==> r[c] == row[c]
  {
    map c | c in row :: if c in CurrentColumns then FieldCell(f, c) else row[c]
  }

  /** Reading back an inserted row gives the values inserted, under the new id. */
  lemma RecordOfNewRow(id: int, cols: set<string>, f: Fields)
    requires CurrentColumns <= cols
    ensures RecordOf(id, NewRow(cols, f)) == FromFields(id, f)
  {
  }

  /** Reading back an updated row gives the values written: the update is a full overwrite. */
  lemma RecordOfOverwrite(id: int, row: Row, f: Fields)
    requires CurrentColumns <= row.Keys
    ensures RecordOf(id, Overwrite(row, f)) == FromFields(id, f)
    ensures Overwrite(row, f).Keys == row.Keys
    ensures forall c :: c in row && c !in CurrentColumns ==> Overwrite(row, f)[c] == row[c]
  {
  }

  /** Sorted by name in the order of `ORDER BY nombre`. */
  predicate SortedByName(s: seq<Empresa>)
  {
    forall i, j :: 0 <= i < j < |s| ==> CellLe(s[i].nombre, s[j].nombre)
  }

  /** The records of a table, one per row. */
  function Records(rows: map<int, Row>): set<Empresa>
  {
    set id | id in rows :: RecordOf(id, rows[id])
  }

  /** Insertion of one record into a list sorted by name, before the first
      record whose name it does not exceed. */
  function InsertByName(s: seq<Empresa>, e: Empresa): seq<Empresa>
  {
    if s == [] then [e]
    else if CellLe(e.nombre, s[0].nombre) then [e] + s
    else [s[0]] + InsertByName(s[1..], e)
  }

  /** Insertion keeps the list sorted and adds exactly the one record. */
  lemma {:induction false} InsertByNameSorted(s: seq<Empresa>, e: Empresa)
    requires SortedByName(s)
    ensures SortedByName(InsertByName(s, e))
    ensures multiset(InsertByName(s, e)) == multiset(s) + multiset{e}
  {
    if s == [] {
    } else if CellLe(e.nombre, s[0].nombre) {
      forall k | 0 <= k < |s|
        ensures CellLe(e.nombre, s[k].nombre)
      {
        if k > 0 {
          CellLeTransitive(e.nombre, s[0].nombre, s[k].nombre);
        }
      }
      PrependSorted(e, s);
    } else {
      var tail := s[1..];
      assert SortedByName(tail);
      InsertByNameSorted(tail, e);
      var rest := InsertByName(tail, e);
      assert s == [s[0]] + tail;
      CellLeTotal(e.nombre, s[0].nombre);
      forall k | 0 <= k < |rest|
        ensures CellLe(s[0].nombre, rest[k].nombre)
      {
        assert rest[k] in multiset(rest);
        if rest[k] != e {
          assert rest[k] in multiset(tail);
          var m :| 0 <= m < |tail| && tail[m] == rest[k];
          assert s[m + 1] == tail[m];
        }
      }
      PrependSorted(s[0], rest);
    }
  }

  /** A record whose name is at most every name of a sorted list can go first. */
  lemma PrependSorted(x: Empresa, s: seq<Empresa>)
    requires SortedByName(s)
    requires forall k :: 0 <= k < |s| ==> CellLe(x.nombre, s[k].nombre)
    ensures SortedByName([x] + s)
  {
    var r := [x] + s;
    forall i, j | 0 <= i < j < |r|
      ensures CellLe(r[i].nombre, r[j].nombre)
    {
      assert r[j] == s[j - 1];
      if i > 0 {
        assert r[i] == s[i - 1];
      }
    }
  }

  /** `s` lists the table's rows: every row exactly once, as its record. */
  predicate ListsRows(s: seq<Empresa>, rows: map<int, Row>)
  {
    multiset(s) == multiset(Records(rows))
  }

  /** Adding a row with a new id adds exactly its record to the records. */
  lemma RecordsAddRow(rows: map<int, Row>, id: int, row: Row)
    requires id !in rows
    ensures Records(rows[id := row]) == Records(rows) + {RecordOf(id, row)}
    ensures RecordOf(id, row) !in Records(rows)
  {
    var bigger := rows[id := row];
    forall e | e in Records(bigger)
      ensures e in Records(rows) + {RecordOf(id, row)}
    {
      var k :| k in bigger && e == RecordOf(k, bigger[k]);
      if k != id {
        assert e == RecordOf(k, rows[k]);
      }
    }
    forall e | e in Records(rows)
      ensures e in Records(bigger)
    {
      var k :| k in rows && e == RecordOf(k, rows[k]);
      assert bigger[k] == rows[k];
    }
    assert bigger[id] == row;
    assert RecordOf(id, row) in Records(bigger);
  }

  /** One step of listing the table: inserting the record of one more row
      keeps the list sorted and makes it list that row too. */
  lemma ListsRowsStep(out: seq<Empresa>, rows: map<int, Row>, todo: set<int>, id: int)
    requires SortedByName(out) && multiset(out) == multiset(Records(rows - todo))
    requires id in todo && id in rows
    ensures SortedByName(InsertByName(out, RecordOf(id, rows[id])))
    ensures multiset(InsertByName(out, RecordOf(id, rows[id]))) == multiset(Records(rows - (todo - {id})))
  {
    var e := RecordOf(id, rows[id]);
    InsertByNameSorted(out, e);
    RecordsAddRow(rows - todo, id, rows[id]);
    assert (rows - todo)[id := rows[id]] == rows - (todo - {id});
  }

  /** The raw entry form: the text fields as typed, and the outcome of
      parsing the two coordinate fields as numbers (`None` when parsing fails). */
  datatype Form = Form(
    nombre: string, sector: string, provincia: string, comunidad: string,
    lat: Option<real>, lon: Option<real>, link: string)

  /** The values the form yields: name, region and link stripped; nothing
      when a coordinate is not a number. */
  function ReadForm(form: Form): (r: Option<Fields>)
    ensures r.Some? <==> form.lat.Some? && form.lon.Some?
    ensures r.Some? ==> r.value.nombre == Forms.Strip(form.nombre) && r.value.provincia == form.provincia
    ensures r.Some? ==> r.value.sector == form.sector && r.value.comunidad == Forms.Strip(form.comunidad)
    ensures r.Some? ==> r.value.lat == form.lat.value && r.value.lon == form.lon.value
    ensures r.Some? ==> r.value.link == Forms.Strip(form.link)
  {
    if form.lat.None? || form.lon.None? then None
    else Some(Fields(Forms.Strip(form.nombre), form.sector, form.provincia, Forms.Strip(form.comunidad),
      form.lat.value, form.lon.value, Forms.Strip(form.link)))
  }

  /** The company `get_all` lists for a form as typed: name, region and link
      stripped, sector and province as chosen, the parsed coordinates. */
  function TypedRecord(id: int, form: Form): Empresa
    requires form.lat.Some? && form.lon.Some?
  {
    Empresa(id, TextCell(Forms.Strip(form.nombre)), TextCell(form.sector), TextCell(form.provincia),
      TextCell(Forms.Strip(form.comunidad)), NumCell(form.lat.value), NumCell(form.lon.value),
      TextCell(Forms.Strip(form.link)))
  }

  /** A form whose coordinates parse, inserted and read back, lists as typed:
      the typed latitude is the listed `latitud`, and so on for every field. */
  lemma FormInsertRoundTrip(id: int, cols: set<string>, form: Form)
    requires CurrentColumns <= cols && form.lat.Some? && form.lon.Some?
    ensures ReadForm(form).Some?
    ensures RecordOf(id, NewRow(cols, ReadForm(form).value)) == TypedRecord(id, form)
  {
    RecordOfNewRow(id, cols, ReadForm(form).value);
  }

  /** A form whose coordinates parse, saved over a row and read back, lists as typed. */
  lemma FormSaveRoundTrip(id: int, row: Row, form: Form)
    requires CurrentColumns <= row.Keys && form.lat.Some? && form.lon.Some?
    ensures ReadForm(form).Some?
    ensures RecordOf(id, Overwrite(row, ReadForm(form).value)) == TypedRecord(id, form)
  {
    RecordOfOverwrite(id, row, ReadForm(form).value);
  }

  /** What a form action ended in. */
  datatype FormOutcome =
    | NoSelection                      // update or delete with no company selected
    | BadCoordinates                   // a coordinate field is not a number
    | Rejected(check: Forms.FormCheck) // a required field is empty
    | Cancelled                        // the delete was not confirmed
    | Done(ok: bool)                   // the store operation ran; false when SQLite raised

  /** A set of ids is empty or has a member to pick. */
  lemma EmptyOrMember(s: set<int>)
    ensures s == {} || exists x :: x in s
  {
    if forall x :: x !in s {
      assert s <= {};
    }
  }

  class Database {
    /** Whether the `empresas` table exists. */
    var tableExists: bool
    /** The table (empty while it does not exist). */
    var table: Table
    /** The AUTOINCREMENT counter: the largest id ever handed out. */
    var lastId: int
    /** Every id ever handed out. */
    ghost var issued: set<int>

    ghost predicate Valid()
      reads this
    {
      && WellFormed(table)
      && (!tableExists ==> table == Table({}, map[]) && lastId == 0 && issued == {})
      && table.rows.Keys <= issued
      && (forall id :: id in issued ==> id <= lastId)
    }

    /** What is on disk: the table, or nothing. */
    function Disk(): Option<Table>
      reads this
    {
      if tableExists then Some(table) else None
    }

    /** Whether the table has every column the operations name. */
    predicate HasCurrentColumns()
      reads this
    {
      tableExists && CurrentColumns <= table.columns
    }

    /** Opens the database file as it is found. A file without the table has
        no `AUTOINCREMENT` counter either (SQLite drops the table's
        `sqlite_sequence` entry with it), so its counter is 0. */
    constructor Open(disk: Option<Table>, counter: int)
      requires disk.Some? ==> WellFormed(disk.value)
      requires disk.Some? ==> forall id :: id in disk.value.rows ==> id <= counter
      requires disk.None? ==> counter == 0
      ensures Valid()
      ensures Disk() == disk && lastId == counter
    {
      tableExists := disk.Some?;
      table := if disk.Some? then disk.value else Table({}, map[]);
      lastId := counter;
      issued := if disk.Some? then disk.value.rows.Keys else {};
    }

    /** The per-row loop of the legacy step: for each (id, province) pair
        read once, sets the region cell when the province table gives one. */
    method FillRegionsInPlace()
      requires WellFormed(table) && "provincia" in table.columns && "comunidad" in table.columns
      modifies this`table
      ensures table == FillRegions(old(table))
    {
      var filas := table;
      var todo := filas.rows.Keys;
      while todo != {}
        invariant todo <= filas.rows.Keys
        invariant table.columns == filas.columns && table.rows.Keys == filas.rows.Keys
        invariant forall id :: id in table.rows ==>
          table.rows[id] == if id in todo then filas.rows[id] else FillRegionRow(filas.rows[id])
        decreases todo
      {
        EmptyOrMember(todo);
        var id :| id in todo;
        var reg := RegionCell(filas.rows[id]["provincia"]);
        if reg.Some? {
          table := table.(rows := table.rows[id := table.rows[id]["comunidad" := reg]]);
        }
        todo := todo - {id};
      }
      ghost var want := FillRegions(filas).rows;
      forall id | id in want ensures id in table.rows && table.rows[id] == want[id] { }
      assert table.rows.Keys <= want.Keys && want.Keys <= table.rows.Keys;
      assert table.rows == want;
    }

    /** The legacy step of startup: the two `ALTER TABLE`s, the copy of
        `ciudad` into `provincia` and the per-row region fill. */
    method LegacyStep()
      requires WellFormed(table) && IsLegacy(table.columns) && "comunidad" !in table.columns
      modifies this`table
      ensures table == LegacyTable(old(table))
    {
      table := AddColumn(table, "provincia");
      table := AddColumn(table, "comunidad");
      table := CopyColumn(table, "ciudad", "provincia");
      FillRegionsInPlace();
    }

    /** Startup: creates the table with the full schema, or brings an
        existing table up to date step by step on the column list read once. */
    method InitDb() returns (ok: bool)
      requires Valid()
      modifies this
      ensures Valid()
      ensures Disk() == Some(Migrate(old(Disk())).table)
      ensures ok == Migrate(old(Disk())).ok
      ensures lastId == old(lastId) && issued == old(issued)
      ensures !old(tableExists) ==> lastId == 0 && issued == {}
    {
      MigrateKeepsIds(table);
      MigrateWellFormed(Disk());
      if !tableExists {
        tableExists := true;
        table := Table(CurrentColumns, map[]);
        return true;
      }
      ghost var t := table;
      var columnas := table.columns;
      if "ciudad" in columnas && "provincia" !in columnas {
        if "comunidad" in columnas {
          // The second ALTER TABLE fails on the duplicate column; the first stays.
          table := AddColumn(table, "provincia");
          return false;
        }
        LegacyStep();
      }
      assert table == if IsLegacy(columnas) then LegacyTable(t) else t;
      if "latitud" !in columnas {
        table := AddColumn(table, "latitud");
      }
      if "longitud" !in columnas {
        table := AddColumn(table, "longitud");
      }
      ok := true;
    }

    /** `get_all`: every company, ordered by name; nothing when the table or
        one of the selected columns is missing (SQLite raises). */
    method GetAll() returns (r: Option<seq<Empresa>>)
      requires Valid()
      ensures r.Some? <==> HasCurrentColumns()
      ensures r.Some? ==> SortedByName(r.value) && ListsRows(r.value, table.rows)
    {
      if !HasCurrentColumns() {
        return None;
      }
      var rows := table.rows;
      var todo := rows.Keys;
      var out: seq<Empresa> := [];
      while todo != {}
        invariant todo <= rows.Keys
        invariant SortedByName(out)
        invariant multiset(out) == multiset(Records(rows - todo))
        decreases todo
      {
        EmptyOrMember(todo);
        var id :| id in todo;
        var e := RecordOf(id, rows[id]);
        ListsRowsStep(out, rows, todo, id);
        out := InsertByName(out, e);
        todo := todo - {id};
      }
      assert rows - {} == rows;
      return Some(out);
    }

    /** `insert_empresa`: stores one new row under the next AUTOINCREMENT id,
        an id never handed out before. */
    method Insert(f: Fields) returns (ok: bool)
      requires Valid()
      modifies this
      ensures Valid()
      ensures ok == old(HasCurrentColumns())
      ensures tableExists == old(tableExists) && table.columns == old(table.columns)
      ensures ok ==> lastId == old(lastId) + 1 && lastId !in old(issued) && issued == old(issued) + {lastId}
      ensures ok ==> table.rows == old(table.rows)[lastId := NewRow(table.columns, f)]
      ensures !ok ==> table == old(table) && lastId == old(lastId) && issued == old(issued)
    {
      if !HasCurrentColumns() {
        return false;
      }
      lastId := lastId + 1;
      issued := issued + {lastId};
      table := table.(rows := table.rows[lastId := NewRow(table.columns, f)]);
      ok := true;
    }

    /** `delete_empresa`: removes the row with that id; nothing happens when
        there is none. */
    method Delete(id: int) returns (ok: bool)
      requires Valid()
      modifies this
      ensures Valid()
      ensures ok == old(tableExists)
      ensures tableExists == old(tableExists) && table.columns == old(table.columns)
      ensures table.rows == old(table.rows) - {id}
      ensures lastId == old(lastId) && issued == old(issued)
    {
      if !tableExists {
        return false;
      }
      table := table.(rows := table.rows - {id});
      ok := true;
    }

    /** `update_empresa`: overwrites the seven columns of the row with that
        id; when there is none the table is left as it was and nothing is signalled. */
    method Update(id: int, f: Fields) returns (ok: bool)
      requires Valid()
      modifies this
      ensures Valid()
      ensures ok == old(HasCurrentColumns())
      ensures tableExists == old(tableExists) && table.columns == old(table.columns)
      ensures ok && id in old(table.rows) ==> table.rows == old(table.rows)[id := Overwrite(old(table.rows)[id], f)]
      ensures !ok || id !in old(table.rows) ==> table == old(table)
      ensures lastId == old(lastId) && issued == old(issued)
    {
      if !HasCurrentColumns() {
        return false;
      }
      if id in table.rows {
        table := table.(rows := table.rows[id := Overwrite(table.rows[id], f)]);
      }
      ok := true;
    }

    /** The "add" button: reads the form, checks it, and inserts only a
        company with a name and a province. */
    method Add(form: Form) returns (outcome: FormOutcome)
      requires Valid()
      modifies this
      ensures Valid()
      ensures ReadForm(form).None? ==> outcome == BadCoordinates
      ensures ReadForm(form).Some? ==>
        var f := ReadForm(form).value;
        outcome == if Forms.Validate(f.nombre, f.provincia) != Forms.Accepted
                   then Rejected(Forms.Validate(f.nombre, f.provincia))
                   else Done(old(HasCurrentColumns()))
      ensures outcome == Done(true) ==>
        var f := ReadForm(form).value;
        && f.nombre != "" && f.provincia != ""
        && lastId == old(lastId) + 1
        && table.rows == old(table.rows)[lastId := NewRow(table.columns, f)]
      ensures outcome != Done(true) ==> table == old(table) && lastId == old(lastId)
      ensures tableExists == old(tableExists) && table.columns == old(table.columns)
    {
      var data := ReadForm(form);
      if data.None? {
        return BadCoordinates;
      }
      var f := data.value;
      var check := Forms.Validate(f.nombre, f.provincia);
      if check != Forms.Accepted {
        return Rejected(check);
      }
      var ok := Insert(f);
      outcome := Done(ok);
    }

    /** The "save" button: overwrites the selected company from the form,
        only when one is selected and it has a name and a province. */
    method Save(selected: Option<int>, form: Form) returns (outcome: FormOutcome)
      requires Valid()
      modifies this
      ensures Valid()
      ensures selected.None? ==> outcome == NoSelection
      ensures selected.Some? && ReadForm(form).None? ==> outcome == BadCoordinates
      ensures selected.Some? && ReadForm(form).Some? ==>
        var f := ReadForm(form).value;
        outcome == if Forms.Validate(f.nombre, f.provincia) != Forms.Accepted
                   then Rejected(Forms.Validate(f.nombre, f.provincia))
                   else Done(old(HasCurrentColumns()))
      ensures outcome == Done(true) ==>
        var f := ReadForm(form).value;
        && selected.Some? && f.nombre != "" && f.provincia != ""
        && (selected.value in old(table.rows) ==>
              table.rows == old(table.rows)[selected.value := Overwrite(old(table.rows)[selected.value], f)])
        && (selected.value !in old(table.rows) ==> table == old(table))
      ensures outcome != Done(true) ==> table == old(table)
      ensures tableExists == old(tableExists) && table.columns == old(table.columns)
      ensures lastId == old(lastId)
    {
      if selected.None? {
        return NoSelection;
      }
      var data := ReadForm(form);
      if data.None? {
        return BadCoordinates;
      }
      var f := data.value;
      var check := Forms.Validate(f.nombre, f.provincia);
      if check != Forms.Accepted {
        return Rejected(check);
      }
      var ok := Update(selected.value, f);
      outcome := Done(ok);
    }

    /** The "delete" button: removes the selected company once the user confirms. */
    method Remove(selected: Option<int>, confirmed: bool) returns (outcome: FormOutcome)
      requires Valid()
      modifies this
      ensures Valid()
      ensures selected.None? ==> outcome == NoSelection
      ensures selected.Some? && !confirmed ==> outcome == Cancelled
      ensures selected.Some? && confirmed ==> outcome == Done(old(tableExists))
      ensures outcome == Done(true) ==> selected.Some? && confirmed && table.rows == old(table.rows) - {selected.value}
      ensures outcome != Done(true) ==> table == old(table)
      ensures tableExists == old(tableExists) && table.columns == old(table.columns)
      ensures lastId == old(lastId)
    {
      if selected.None? {
        return NoSelection;
      }
      if !confirmed {
        return Cancelled;
      }
      var ok := Delete(selected.value);
      outcome := Done(ok);
    }
  }
}
