/**
 Database tables whose rows belong to a file: insertion at the end, deletion by
 file. A table is a sequence of rows in insertion order, as SQLite's row ids give
 it; what matters of a table is, for each file, the sequence of that file's rows,
 and the lemmas say how it changes under each operation while the rows of all
 other files stay as they are.
 */
module Tables {
  import opened Ordering

  datatype Row<D> = Row(file: Id, data: D)

  /** The rows of one file, in row order. */
  function RowsOf<D>(table: seq<Row<D>>, file: Id): seq<D> {
    if table == [] then []
    else
      var front, last := table[..|table| - 1], table[|table| - 1];
      if last.file == file then RowsOf(front, file) + [last.data] else RowsOf(front, file)
  }

  /** The cascade of deleting some files. */
  function Without<D>(table: seq<Row<D>>, gone: set<Id>): seq<Row<D>> {
    if table == [] then []
    else
      var front, last := table[..|table| - 1], table[|table| - 1];
      if last.file in gone then Without(front, gone) else Without(front, gone) + [last]
  }

  /** Rows of `data` for one file. */
  function Stamp<D>(file: Id, data: seq<D>): seq<Row<D>> {
    if data == [] then [] else Stamp(file, data[..|data| - 1]) + [Row(file, data[|data| - 1])]
  }

  lemma RowsOfAppend<D>(table: seq<Row<D>>, row: Row<D>, file: Id)
    ensures RowsOf(table + [row], file) == RowsOf(table, file) + if row.file == file then [row.data] else []
  {
    assert (table + [row])[..|table|] == table;
  }

  lemma {:induction false} RowsOfWithout<D>(table: seq<Row<D>>, gone: set<Id>, file: Id)
    ensures RowsOf(Without(table, gone), file) == if file in gone then [] else RowsOf(table, file)
  {
    if table != [] {
      var front, last := table[..|table| - 1], table[|table| - 1];
      RowsOfWithout(front, gone, file);
      RowsOfAppend(Without(front, gone), last, file);
    }
  }

  lemma {:induction false} RowsOfStamp<D>(table: seq<Row<D>>, owner: Id, data: seq<D>, file: Id)
    ensures RowsOf(table + Stamp(owner, data), file) == RowsOf(table, file) + if owner == file then data else []
  {
    if data == [] {
      assert table + Stamp(owner, data) == table;
    } else {
      var front, row := data[..|data| - 1], Row(owner, data[|data| - 1]);
      RowsOfStamp(table, owner, front, file);
      assert table + Stamp(owner, data) == (table + Stamp(owner, front)) + [row];
      RowsOfAppend(table + Stamp(owner, front), row, file);
      assert data == front + [row.data];
    }
  }

  /** Deleting files that own no rows changes nothing. */
  lemma {:induction false} WithoutNothing<D>(table: seq<Row<D>>, gone: set<Id>)
    requires forall r | r in table :: r.file !in gone
    ensures Without(table, gone) == table
  {
    if table != [] {
      var front, last := table[..|table| - 1], table[|table| - 1];
      assert last in table;
      WithoutNothing(front, gone);
    }
  }

  /** Deleting one set of files and then another is deleting both. */
  lemma {:induction false} WithoutTwice<D>(table: seq<Row<D>>, a: set<Id>, b: set<Id>)
    ensures Without(Without(table, a), b) == Without(table, a + b)
  {
    if table != [] {
      var front, last := table[..|table| - 1], table[|table| - 1];
      WithoutTwice(front, a, b);
      if last.file !in a {
        assert (Without(front, a) + [last])[..|Without(front, a)|] == Without(front, a);
      }
    }
  }

  lemma {:induction false} RowInTable<D>(table: seq<Row<D>>, file: Id, d: D)
    ensures d in RowsOf(table, file) <==> Row(file, d) in table
  {
    if table != [] {
      var front, last := table[..|table| - 1], table[|table| - 1];
      RowInTable(front, file, d);
      assert table == front + [last];
    }
  }
}
