/**
 * Loading a directory of CSV exports into the database. The database is a
 * map from table name to the table's rows. Each directory entry whose name
 * ends in ".csv" is read and written to the table named after the file,
 * replacing that table. The `ingest_db` helper appends rows instead. A
 * failure on one file is caught: the handler reports it and rolls back on
 * a fresh connection. When the handler completes, the loop goes on with the
 * next file; when the handler itself raises, the loop ends there.
 *
 * Reading a file and writing a table are outside the model. They are given
 * as functions of the file name:
 *  - `read(file)` is the parsed rows, or None when reading raised;
 *  - `write(file)` is how the replacing write ended;
 *  - `handled(file)` is whether the handler run after a failure on that
 *    file completed, its report and its rollback raising nothing.
 * A write that failed part-way leaves its table in a state the model does
 * not predict. No atomicity is claimed.
 */
module Ingestion {
  import opened Wrappers

  /** A parsed CSV record: its cells as text. */
  type Row = seq<string>

  type Tables = map<string, seq<Row>>

  /** How the replacing write of one file ended. After a failure the table
      is whatever the write left behind: absent (None) or some rows. */
  datatype WriteOutcome = Written | Failed(leftover: Option<seq<Row>>)

  /** The table called `name`, or None when there is no such table. */
  function Table(tables: Tables, name: string): (t: Option<seq<Row>>)
    ensures t.Some? <==> name in tables
    ensures t.Some? ==> t.value == tables[name]
  {
    if name in tables then Some(tables[name]) else None
  }

  // ---------------------------------------------------------------------
  // File names

  /** `file.endswith('.csv')`, case-sensitive. */
  predicate IsCsv(file: string)
  {
    |file| >= 4 && file[|file| - 4..] == ".csv"
  }

  /** `file[:-4]`: the name of the table a .csv file loads into. */
  function TableName(file: string): (name: string)
    requires IsCsv(file)
    ensures name + ".csv" == file
  {
    file[..|file| - 4]
  }

  /** Distinct .csv files load into distinct tables. */
  lemma TableNameInjective(f: string, g: string)
    requires IsCsv(f) && IsCsv(g) && f != g
    ensures TableName(f) != TableName(g)
  {
  }

  // ---------------------------------------------------------------------
  // One file

  /** Whether loading `file` writes table `name`: a .csv file called
      name + ".csv" whose read succeeded. */
  predicate Touches(file: string, read: string -> Option<seq<Row>>, name: string)
  {
    IsCsv(file) && read(file).Some? && TableName(file) == name
  }

  /** The table a touching file leaves behind: exactly the file's rows when
      the write finished, whatever was left over when it failed. */
  function Outcome(
    file: string, read: string -> Option<seq<Row>>, write: string -> WriteOutcome)
    : Option<seq<Row>>
    requires read(file).Some?
  {
    match write(file)
    case Written => read(file)
    case Failed(leftover) => leftover
  }

  /** One pass of the loop body. A file that is not .csv is skipped; a read
      that raised is caught and changes nothing; otherwise the file's table
      takes the outcome of the replacing write. No other table changes. */
  function LoadFile(
    tables: Tables, file: string,
    read: string -> Option<seq<Row>>, write: string -> WriteOutcome)
    : (r: Tables)
    ensures forall n :: Table(r, n) == if Touches(file, read, n) then Outcome(file, read, write) else Table(tables, n)
  {
    if !IsCsv(file) || read(file).None? then tables
    else
      var name := TableName(file);
      match Outcome(file, read, write)
      case Some(rows) => tables[name := rows]
      case None => tables - {name}
  }

  // ---------------------------------------------------------------------
  // The directory

  /** The database after loading `files` in listing order, every failure
      being caught: each table ends as its own history. */
  function IngestAll(
    tables: Tables, files: seq<string>,
    read: string -> Option<seq<Row>>, write: string -> WriteOutcome)
    : (r: Tables)
    ensures forall n :: Table(r, n) == TableAfter(Table(tables, n), files, n, read, write)
  {
    if files == [] then tables
    else LoadFile(IngestAll(tables, files[..|files| - 1], read, write), files[|files| - 1], read, write)
  }

  /** One table's history, independent of every other table: the outcome of
      the last file that touches it, or what it held before when none does. */
  function TableAfter(
    before: Option<seq<Row>>, files: seq<string>, name: string,
    read: string -> Option<seq<Row>>, write: string -> WriteOutcome)
    : Option<seq<Row>>
  {
    if files == [] then before
    else
      var last := files[|files| - 1];
      if Touches(last, read, name) then Outcome(last, read, write)
      else TableAfter(before, files[..|files| - 1], name, read, write)
  }

  /** A table no file touches keeps what it held. */
  lemma {:induction false} TableAfterUntouched(
    before: Option<seq<Row>>, files: seq<string>, name: string,
    read: string -> Option<seq<Row>>, write: string -> WriteOutcome)
    requires forall f :: f in files ==> !Touches(f, read, name)
    ensures TableAfter(before, files, name, read, write) == before
  {
    if files != [] {
      assert files[|files| - 1] in files;
      TableAfterUntouched(before, files[..|files| - 1], name, read, write);
    }
  }

  /** A table exactly one file touches ends as that file's outcome. */
  lemma {:induction false} TableAfterOnlyToucher(
    before: Option<seq<Row>>, files: seq<string>, file: string,
    read: string -> Option<seq<Row>>, write: string -> WriteOutcome)
    requires IsCsv(file) && read(file).Some? && file in files
    requires forall f :: f in files && Touches(f, read, TableName(file)) ==> f == file
    ensures TableAfter(before, files, TableName(file), read, write) == Outcome(file, read, write)
  {
    var last := files[|files| - 1];
    if !Touches(last, read, TableName(file)) {
      var prefix := files[..|files| - 1];
      assert files == prefix + [last];
      assert file in prefix;
      TableAfterOnlyToucher(before, prefix, file, read, write);
    }
  }

  /** Once a table has been loaded, loading the same files again gives the
      same table. */
  lemma {:induction false} TableAfterIdempotent(
    before: Option<seq<Row>>, files: seq<string>, name: string,
    read: string -> Option<seq<Row>>, write: string -> WriteOutcome)
    ensures TableAfter(TableAfter(before, files, name, read, write), files, name, read, write)
      == TableAfter(before, files, name, read, write)
  {
    if files != [] && !Touches(files[|files| - 1], read, name) {
      TableAfterIdempotent(before, files[..|files| - 1], name, read, write);
    }
  }

  /** No other entry of the listing loads into the table of `file`. */
  lemma OnlyFileForItsTable(files: seq<string>, file: string, read: string -> Option<seq<Row>>)
    requires IsCsv(file)
    ensures forall f :: f in files && Touches(f, read, TableName(file)) ==> f == file
  {
    forall f | f in files && Touches(f, read, TableName(file))
      ensures f == file
    {
      if f != file {
        TableNameInjective(f, file);
      }
    }
  }

  /** Replace semantics: after the loop, the table of a .csv file that was
      read and written holds exactly that file's rows, whatever it held
      before, and whichever other files failed. */
  lemma LoadedTableHoldsFileRows(
    tables: Tables, files: seq<string>, file: string,
    read: string -> Option<seq<Row>>, write: string -> WriteOutcome)
    requires file in files && IsCsv(file)
    requires read(file).Some? && write(file) == Written
    ensures Table(IngestAll(tables, files, read, write), TableName(file)) == read(file)
  {
    OnlyFileForItsTable(files, file, read);
    TableAfterOnlyToucher(Table(tables, TableName(file)), files, file, read, write);
  }

  /** Failure containment, for a write: the table of a .csv file whose
      write failed holds whatever the write left behind, whatever the other
      files did. */
  lemma FailedWriteLeavesLeftover(
    tables: Tables, files: seq<string>, file: string,
    read: string -> Option<seq<Row>>, write: string -> WriteOutcome)
    requires file in files && IsCsv(file)
    requires read(file).Some? && write(file).Failed?
    ensures Table(IngestAll(tables, files, read, write), TableName(file)) == write(file).leftover
  {
    OnlyFileForItsTable(files, file, read);
    TableAfterOnlyToucher(Table(tables, TableName(file)), files, file, read, write);
  }

  /** Failure containment, for a read: the table of a .csv file whose read
      raised keeps what it held before the loop. */
  lemma FailedReadLeavesTable(
    tables: Tables, files: seq<string>, file: string,
    read: string -> Option<seq<Row>>, write: string -> WriteOutcome)
    requires IsCsv(file) && read(file).None?
    ensures Table(IngestAll(tables, files, read, write), TableName(file)) == Table(tables, TableName(file))
  {
    forall f | f in files
      ensures !Touches(f, read, TableName(file))
    {
      if f != file && IsCsv(f) {
        TableNameInjective(f, file);
      }
    }
    TableAfterUntouched(Table(tables, TableName(file)), files, TableName(file), read, write);
  }

  /** A table no .csv file of the listing is named after is not changed. */
  lemma UnrelatedTableUnchanged(
    tables: Tables, files: seq<string>, name: string,
    read: string -> Option<seq<Row>>, write: string -> WriteOutcome)
    requires forall f :: f in files && IsCsv(f) ==> TableName(f) != name
    ensures Table(IngestAll(tables, files, read, write), name) == Table(tables, name)
  {
    TableAfterUntouched(Table(tables, name), files, name, read, write);
  }

  /** Tables that agree on every name are equal. */
  lemma TablesEqual(a: Tables, b: Tables)
    requires forall n :: Table(a, n) == Table(b, n)
    ensures a == b
  {
    assert a.Keys == b.Keys by {
      forall n ensures n in a <==> n in b {
        assert Table(a, n) == Table(b, n);
      }
    }
    forall n | n in a ensures a[n] == b[n] {
      assert Table(a, n) == Table(b, n);
    }
  }

  /** Running the loop twice over the same directory, with the same reads
      and writes, leaves the database as running it once. */
  lemma IngestAllIdempotent(
    tables: Tables, files: seq<string>,
    read: string -> Option<seq<Row>>, write: string -> WriteOutcome)
    ensures IngestAll(IngestAll(tables, files, read, write), files, read, write)
      == IngestAll(tables, files, read, write)
  {
    var once := IngestAll(tables, files, read, write);
    forall n ensures Table(IngestAll(once, files, read, write), n) == Table(once, n) {
      TableAfterIdempotent(Table(tables, n), files, n, read, write);
    }
    TablesEqual(IngestAll(once, files, read, write), once);
  }

  /** The .csv entries of a listing, in order. */
  function CsvFiles(files: seq<string>): (csv: seq<string>)
    ensures forall f :: f in csv <==> f in files && IsCsv(f)
  {
    if files == [] then []
    else
      var last := files[|files| - 1];
      CsvFiles(files[..|files| - 1]) + (if IsCsv(last) then [last] else [])
  }

  /** Only .csv entries are loaded: the other entries of the listing make
      no difference. */
  lemma {:induction false} OnlyCsvLoaded(
    tables: Tables, files: seq<string>,
    read: string -> Option<seq<Row>>, write: string -> WriteOutcome)
    ensures IngestAll(tables, files, read, write) == IngestAll(tables, CsvFiles(files), read, write)
  {
    if files != [] {
      var prefix, last := files[..|files| - 1], files[|files| - 1];
      OnlyCsvLoaded(tables, prefix, read, write);
      if IsCsv(last) {
        var csv := CsvFiles(prefix) + [last];
        assert csv[..|csv| - 1] == CsvFiles(prefix);
      } else {
        assert CsvFiles(files) == CsvFiles(prefix);
      }
    }
  }

  /** Whether the entry `file` fails: a .csv file whose read raised or
      whose write failed. */
  predicate Fails(file: string, read: string -> Option<seq<Row>>, write: string -> WriteOutcome)
  {
    IsCsv(file) && (read(file).None? || write(file).Failed?)
  }

  /** Whether the handler of `file` raises: the entry fails and the except
      block then raises too. */
  predicate HandlerRaises(
    file: string, read: string -> Option<seq<Row>>, write: string -> WriteOutcome, handled: string -> bool)
  {
    Fails(file, read, write) && !handled(file)
  }

  // ---------------------------------------------------------------------
  // Appending

  /** The rows of table `name`, none when it does not exist. */
  function RowsOf(tables: Tables, name: string): seq<Row>
  {
    if name in tables then tables[name] else []
  }

  /** `to_sql(..., if_exists='append')`: the table's previous rows followed
      by the new rows, the table created when absent; no other table
      changes. */
  function Appended(tables: Tables, name: string, rows: seq<Row>): (r: Tables)
    ensures Table(r, name) == Some(RowsOf(tables, name) + rows)
    ensures forall n :: n != name ==> Table(r, n) == Table(tables, n)
  {
    tables[name := RowsOf(tables, name) + rows]
  }

  /** Appending twice appends both batches in order. */
  lemma AppendTwice(tables: Tables, name: string, first: seq<Row>, second: seq<Row>)
    ensures Appended(Appended(tables, name, first), name, second) == Appended(tables, name, first + second)
  {
    assert RowsOf(tables, name) + first + second == RowsOf(tables, name) + (first + second);
  }

  /** Replacing after appending discards the appended rows: a finished load
      of a file leaves its table as the file's rows. */
  lemma ReplaceAfterAppend(
    tables: Tables, rows: seq<Row>, file: string,
    read: string -> Option<seq<Row>>, write: string -> WriteOutcome)
    requires IsCsv(file) && read(file).Some? && write(file) == Written
    ensures Table(LoadFile(Appended(tables, TableName(file), rows), file, read, write), TableName(file))
      == read(file)
  {
  }

  // ---------------------------------------------------------------------
  // The database

  class Database {
    var tables: Tables

    constructor(tables: Tables)
      ensures this.tables == tables
    {
      this.tables := tables;
    }

    /** `ingest_db`: appends `df` to table `tableName`. */
    method IngestDb(df: seq<Row>, tableName: string)
      modifies this
      ensures tables == Appended(old(tables), tableName, df)
    {
      if tableName in tables {
        tables := tables[tableName := tables[tableName] + df];
      } else {
        assert RowsOf(tables, tableName) + df == df;
        tables := tables[tableName := df];
      }
    }

    /** The directory loop: every .csv entry of `files`, in listing order,
        replaces the table named after it. A failing entry is caught and the
        loop goes on, unless the handler itself raises: then the loop
        ends after that entry. `attempted` counts the entries the loop got
        through, and `raised` tells whether it ended on a raising handler. */
    method IngestDirectory(
      files: seq<string>, read: string -> Option<seq<Row>>, write: string -> WriteOutcome,
      handled: string -> bool)
      returns (attempted: nat, raised: bool)
      modifies this
      ensures attempted <= |files|
      ensures tables == IngestAll(old(tables), files[..attempted], read, write)
      ensures forall j :: 0 <= j < attempted - 1 ==> !HandlerRaises(files[j], read, write, handled)
      ensures raised <==> attempted > 0 && HandlerRaises(files[attempted - 1], read, write, handled)
      ensures !raised ==> attempted == |files|
    {
      attempted, raised := 0, false;
      while attempted < |files| && !raised
        invariant attempted <= |files|
        invariant tables == IngestAll(old(tables), files[..attempted], read, write)
        invariant forall j :: 0 <= j < attempted - 1 ==> !HandlerRaises(files[j], read, write, handled)
        invariant raised <==> attempted > 0 && HandlerRaises(files[attempted - 1], read, write, handled)
      {
        ghost var before := tables;
        var file := files[attempted];
        if IsCsv(file) {
          var df := read(file);
          if df.Some? {
            var name := TableName(file);
            match write(file) {
              case Written =>
                tables := tables[name := df.value];
              case Failed(leftover) =>
                if leftover.Some? {
                  tables := tables[name := leftover.value];
                } else {
                  tables := tables - {name};
                }
                raised := !handled(file);
            }
          } else {
            raised := !handled(file);
          }
        }
        assert tables == LoadFile(before, file, read, write);
        assert files[..attempted + 1] == files[..attempted] + [file];
        attempted := attempted + 1;
      }
    }
  }
}
