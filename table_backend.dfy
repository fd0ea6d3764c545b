/**
 * The hosted-table backend: each collection is a table of rows `{id, data}` keyed by id.
 * `readData` queries both tables and folds their rows into the snapshot; `writeData` upserts every
 * user and then every event, one row at a time, and gives up at the first refused upsert.
 */
module TableBackend {
  import opened Wrappers
  import opened JsValues
  import opened Collections
  import opened RecordStore

  datatype Table = UsersTable | EventsTable

  datatype Row = Row(id: string, data: Record)

  datatype Tables = Tables(users: seq<Row>, events: seq<Row>)

  /**
   * What the remote service does, fixed for one call: whether the select on each table fails, and
   * which upserts the service refuses.
   */
  datatype Faults = Faults(usersQueryFails: bool, eventsQueryFails: bool, rejected: set<(Table, string)>)

  /** The id column is the table's primary key. */
  predicate UniqueIds(rows: seq<Row>) {
    forall i, j :: 0 <= i < j < |rows| ==> rows[i].id != rows[j].id
  }

  /** The data column of the row with id `k`. */
  function RowData(rows: seq<Row>, k: string): Option<Record>
    decreases |rows|
  {
    if |rows| == 0 then None
    else if rows[0].id == k then Some(rows[0].data)
    else RowData(rows[1..], k)
  }

  /** A table has data under `k` exactly when one of its rows has id `k`. */
  lemma {:induction false} RowDataPresent(rows: seq<Row>, k: string)
    ensures RowData(rows, k).None? <==> forall i :: 0 <= i < |rows| ==> rows[i].id != k
    decreases |rows|
  {
    if |rows| > 0 && rows[0].id != k {
      RowDataPresent(rows[1..], k);
      assert forall i :: 1 <= i < |rows| ==> rows[i] == rows[1..][i - 1];
    }
  }

  function Ids(rows: seq<Row>): seq<string> {
    seq(|rows|, i requires 0 <= i < |rows| => rows[i].id)
  }

  /** `rows.reduce((acc, row) => { acc[row.id] = row.data; return acc; }, acc)` */
  function Fold(acc: Collection, rows: seq<Row>): (c: Collection)
    requires Collections.Wf(acc)
    ensures Collections.Wf(c)
    decreases |rows|
  {
    if |rows| == 0 then acc else Fold(Put(acc, rows[0].id, rows[0].data), rows[1..])
  }

  /** The map `readData` builds from the rows of one table. */
  function Tabulate(rows: seq<Row>): Collection {
    EmptyWf();
    Fold(EmptyCollection, rows)
  }

  /** Folding the rows maps each row's id to its data column, leaving the other keys as they were. */
  lemma {:induction false} FoldGet(acc: Collection, rows: seq<Row>, k: string)
    requires Collections.Wf(acc) && UniqueIds(rows)
    ensures Get(Fold(acc, rows), k) == if RowData(rows, k).Some? then RowData(rows, k) else Get(acc, k)
    decreases |rows|
  {
    if |rows| > 0 {
      assert UniqueIds(rows[1..]) by {
        forall i, j | 0 <= i < j < |rows[1..]| ensures rows[1..][i].id != rows[1..][j].id {
          assert rows[1..][i] == rows[i + 1] && rows[1..][j] == rows[j + 1];
        }
      }
      FoldGet(Put(acc, rows[0].id, rows[0].data), rows[1..], k);
      if k == rows[0].id {
        forall i | 0 <= i < |rows[1..]| ensures rows[1..][i].id != k {
          assert rows[1..][i] == rows[i + 1];
        }
        RowDataPresent(rows[1..], k);
      }
    }
  }

  /** The keys come out in row order after the keys already in the accumulator. */
  lemma {:induction false} FoldKeys(acc: Collection, rows: seq<Row>)
    requires Collections.Wf(acc) && UniqueIds(rows)
    requires forall i :: 0 <= i < |rows| ==> rows[i].id !in acc.records
    ensures Fold(acc, rows).keys == acc.keys + Ids(rows)
    decreases |rows|
  {
    if |rows| == 0 {
      assert Ids(rows) == [];
    } else {
      var acc' := Put(acc, rows[0].id, rows[0].data);
      assert UniqueIds(rows[1..]) by {
        forall i, j | 0 <= i < j < |rows[1..]| ensures rows[1..][i].id != rows[1..][j].id {
          assert rows[1..][i] == rows[i + 1] && rows[1..][j] == rows[j + 1];
        }
      }
      forall i | 0 <= i < |rows[1..]| ensures rows[1..][i].id !in acc'.records {
        assert rows[1..][i] == rows[i + 1];
      }
      FoldKeys(acc', rows[1..]);
      assert Ids(rows) == [rows[0].id] + Ids(rows[1..]);
    }
  }

  /** `readData` reads each table as the map from row id to data column, with the keys in row order. */
  lemma TabulateExact(rows: seq<Row>, k: string)
    requires UniqueIds(rows)
    ensures Get(Tabulate(rows), k) == RowData(rows, k)
    ensures Tabulate(rows).keys == Ids(rows)
  {
    EmptyWf();
    FoldGet(EmptyCollection, rows, k);
    FoldKeys(EmptyCollection, rows);
  }

  /**
   * `readData`: both selects must succeed; an error from either yields the empty snapshot rather
   * than a partial one.
   */
  function ReadSnapshot(t: Tables, f: Faults): (s: Snapshot)
    ensures RecordStore.Wf(s)
  {
    EmptyWf();
    if f.usersQueryFails || f.eventsQueryFails then EmptySnapshot
    else Snapshot(Tabulate(t.users), Tabulate(t.events))
  }

  /** What `readData` answers, record by record. */
  lemma ReadSnapshotExact(t: Tables, f: Faults, k: string)
    requires UniqueIds(t.users) && UniqueIds(t.events)
    ensures f.usersQueryFails || f.eventsQueryFails ==> ReadSnapshot(t, f) == EmptySnapshot
    ensures !f.usersQueryFails && !f.eventsQueryFails ==>
              && Get(ReadSnapshot(t, f).users, k) == RowData(t.users, k)
              && Get(ReadSnapshot(t, f).events, k) == RowData(t.events, k)
              && ReadSnapshot(t, f).users.keys == Ids(t.users)
              && ReadSnapshot(t, f).events.keys == Ids(t.events)
  {
    TabulateExact(t.users, k);
    TabulateExact(t.events, k);
  }

  /**
   * `upsert({id, data})`: the row with that id gets the new data column in place; without one, a
   * row is added at the end. No row is ever removed.
   */
  function Upsert(rows: seq<Row>, id: string, data: Record): (r: seq<Row>)
    ensures forall x :: x in r ==> x in rows || x == Row(id, data)
    ensures UniqueIds(rows) ==> UniqueIds(r)
    ensures |r| == if RowData(rows, id).Some? then |rows| else |rows| + 1
    decreases |rows|
  {
    if |rows| == 0 then [Row(id, data)]
    else if rows[0].id == id then [Row(id, data)] + rows[1..]
    else
      var rest := Upsert(rows[1..], id, data);
      assert UniqueIds(rows) ==> UniqueIds(rows[1..]) && forall x :: x in rows[1..] ==> x.id != rows[0].id by {
        if UniqueIds(rows) {
          forall i, j | 0 <= i < j < |rows[1..]| ensures rows[1..][i].id != rows[1..][j].id {
            assert rows[1..][i] == rows[i + 1] && rows[1..][j] == rows[j + 1];
          }
          forall x | x in rows[1..] ensures x.id != rows[0].id {
            var i :| 0 <= i < |rows[1..]| && rows[1..][i] == x;
            assert rows[i + 1] == x;
          }
        }
      }
      [rows[0]] + rest
  }

  lemma {:induction false} UpsertRowData(rows: seq<Row>, id: string, data: Record, k: string)
    ensures RowData(Upsert(rows, id, data), k) == if k == id then Some(data) else RowData(rows, k)
    decreases |rows|
  {
    if |rows| > 0 && rows[0].id != id {
      UpsertRowData(rows[1..], id, data, k);
      assert ([rows[0]] + Upsert(rows[1..], id, data))[1..] == Upsert(rows[1..], id, data);
    } else if |rows| > 0 {
      assert ([Row(id, data)] + rows[1..])[1..] == rows[1..];
    }
  }

  /** The rows after upserting the first `n` entries of `c`, in enumeration order. */
  function UpsertAll(rows: seq<Row>, c: Collection, n: nat): (r: seq<Row>)
    requires Collections.Wf(c) && n <= |c.keys|
    ensures UniqueIds(rows) ==> UniqueIds(r)
    decreases n
  {
    if n == 0 then rows
    else Upsert(UpsertAll(rows, c, n - 1), c.keys[n - 1], c.records[c.keys[n - 1]])
  }

  /**
   * After the first `n` upserts, the rows of those keys hold the collection's records and every other
   * row is as it was: in particular no row is removed.
   */
  lemma {:induction false} UpsertAllRowData(rows: seq<Row>, c: Collection, n: nat, k: string)
    requires Collections.Wf(c) && n <= |c.keys|
    ensures RowData(UpsertAll(rows, c, n), k) == if k in c.keys[..n] then Some(c.records[k]) else RowData(rows, k)
    decreases n
  {
    if n > 0 {
      var prior := UpsertAll(rows, c, n - 1);
      var key := c.keys[n - 1];
      UpsertAllRowData(rows, c, n - 1, k);
      UpsertRowData(prior, key, c.records[key], k);
      assert c.keys[..n] == c.keys[..n - 1] + [key];
      assert k in c.keys[..n] <==> k in c.keys[..n - 1] || k == key;
    }
  }

  /** `writeData` stops at the first refused upsert: the number of keys of `keys` it gets through. */
  function Accepted(table: Table, keys: seq<string>, rejected: set<(Table, string)>): (n: nat)
    ensures n <= |keys|
    decreases |keys|
  {
    if |keys| == 0 || (table, keys[0]) in rejected then 0
    else 1 + Accepted(table, keys[1..], rejected)
  }

  lemma {:induction false} AcceptedAt(table: Table, keys: seq<string>, rejected: set<(Table, string)>, i: nat)
    requires i <= |keys|
    requires forall j :: 0 <= j < i ==> (table, keys[j]) !in rejected
    requires i == |keys| || (table, keys[i]) in rejected
    ensures Accepted(table, keys, rejected) == i
    decreases i
  {
    if i > 0 {
      AcceptedAt(table, keys[1..], rejected, i - 1);
    }
  }

  /** Every upsert of `keys` is accepted exactly when none of them is refused. */
  lemma {:induction false} AcceptedAll(table: Table, keys: seq<string>, rejected: set<(Table, string)>)
    ensures Accepted(table, keys, rejected) == |keys| <==> forall k :: k in keys ==> (table, k) !in rejected
    decreases |keys|
  {
    if |keys| > 0 {
      AcceptedAll(table, keys[1..], rejected);
      assert forall k :: k in keys <==> k == keys[0] || k in keys[1..];
    }
  }

  /**
   * `writeData(s)`: upsert users in order, then events in order; the first refused upsert ends the
   * call with `false`, leaving the rows upserted before it written.
   */
  function WriteOutcome(t: Tables, f: Faults, s: Snapshot): (bool, Tables)
    requires RecordStore.Wf(s)
  {
    var nu := Accepted(UsersTable, s.users.keys, f.rejected);
    var users := UpsertAll(t.users, s.users, nu);
    if nu < |s.users.keys| then (false, Tables(users, t.events))
    else
      var ne := Accepted(EventsTable, s.events.keys, f.rejected);
      (ne == |s.events.keys|, Tables(users, UpsertAll(t.events, s.events, ne)))
  }

  /**
   * The write succeeds exactly when no upsert of the snapshot is refused. Then every record of the
   * snapshot is in its table, and every row the snapshot does not mention is left as it was.
   * After an abort, the upserts before the refused one stay written, the later ones are never
   * issued, and a refused user leaves the events table untouched. Whatever the outcome, no row
   * disappears.
   */
  lemma WriteOutcomeExact(t: Tables, f: Faults, s: Snapshot, k: string)
    requires RecordStore.Wf(s)
    ensures var (ok, t') := WriteOutcome(t, f, s);
            var nu := Accepted(UsersTable, s.users.keys, f.rejected);
            var ne := Accepted(EventsTable, s.events.keys, f.rejected);
      && (!ok && k in s.users.keys[..nu] ==> RowData(t'.users, k) == Get(s.users, k))
      && (!ok && k !in s.users.keys[..nu] ==> RowData(t'.users, k) == RowData(t.users, k))
      && (nu < |s.users.keys| ==> !ok && t'.events == t.events)
      && (!ok && nu == |s.users.keys| && k in s.events.keys[..ne] ==> RowData(t'.events, k) == Get(s.events, k))
      && (!ok && nu == |s.users.keys| && k !in s.events.keys[..ne] ==> RowData(t'.events, k) == RowData(t.events, k))
      && (ok <==> (forall u :: u in s.users.keys ==> (UsersTable, u) !in f.rejected) &&
                  (forall e :: e in s.events.keys ==> (EventsTable, e) !in f.rejected))
      && (ok ==> RowData(t'.users, k) == Get(s.users, k) || (k !in s.users.records && RowData(t'.users, k) == RowData(t.users, k)))
      && (ok ==> RowData(t'.events, k) == Get(s.events, k) || (k !in s.events.records && RowData(t'.events, k) == RowData(t.events, k)))
      && (RowData(t.users, k).Some? ==> RowData(t'.users, k).Some?)
      && (RowData(t.events, k).Some? ==> RowData(t'.events, k).Some?)
      && (k !in s.users.records ==> RowData(t'.users, k) == RowData(t.users, k))
      && (k !in s.events.records ==> RowData(t'.events, k) == RowData(t.events, k))
  {
    AcceptedAll(UsersTable, s.users.keys, f.rejected);
    AcceptedAll(EventsTable, s.events.keys, f.rejected);
    var nu := Accepted(UsersTable, s.users.keys, f.rejected);
    var ne := Accepted(EventsTable, s.events.keys, f.rejected);
    UpsertAllRowData(t.users, s.users, nu, k);
    UpsertAllRowData(t.events, s.events, ne, k);
    assert s.users.keys[..|s.users.keys|] == s.users.keys;
    assert s.events.keys[..|s.events.keys|] == s.events.keys;
  }

  /** `delete().eq('id', id)`: the rows of the table without the one whose id is `id`. */
  function DeleteRow(rows: seq<Row>, id: string): (r: seq<Row>)
    ensures forall x :: x in r ==> x in rows
    ensures UniqueIds(rows) ==> UniqueIds(r)
    decreases |rows|
  {
    if |rows| == 0 then []
    else
      var rest := DeleteRow(rows[1..], id);
      assert UniqueIds(rows) ==> UniqueIds(rows[1..]) && forall x :: x in rows[1..] ==> x.id != rows[0].id by {
        if UniqueIds(rows) {
          forall i, j | 0 <= i < j < |rows[1..]| ensures rows[1..][i].id != rows[1..][j].id {
            assert rows[1..][i] == rows[i + 1] && rows[1..][j] == rows[j + 1];
          }
          forall x | x in rows[1..] ensures x.id != rows[0].id {
            var i :| 0 <= i < |rows[1..]| && rows[1..][i] == x;
            assert rows[i + 1] == x;
          }
        }
      }
      (if rows[0].id == id then [] else [rows[0]]) + rest
  }

  /** After the delete no row has that id, and every other row is as it was. */
  lemma {:induction false} DeleteRowData(rows: seq<Row>, id: string, k: string)
    ensures RowData(DeleteRow(rows, id), k) == if k == id then None else RowData(rows, k)
    decreases |rows|
  {
    if |rows| > 0 {
      DeleteRowData(rows[1..], id, k);
      var rest := DeleteRow(rows[1..], id);
      if rows[0].id == id {
        assert [] + rest == rest;
      } else {
        assert ([rows[0]] + rest)[1..] == rest;
      }
    }
  }

  /** The table-backed store. */
  class Database {
    var tables: Tables
    const faults: Faults

    ghost predicate Valid()
      reads this
    {
      UniqueIds(tables.users) && UniqueIds(tables.events)
    }

    constructor (tables: Tables, faults: Faults)
      requires UniqueIds(tables.users) && UniqueIds(tables.events)
      ensures Valid() && this.tables == tables && this.faults == faults
    {
      this.tables := tables;
      this.faults := faults;
    }

    method ReadData() returns (s: Snapshot)
      ensures s == ReadSnapshot(tables, faults)
    {
      EmptyWf();
      if faults.usersQueryFails {
        return EmptySnapshot;
      }
      if faults.eventsQueryFails {
        return EmptySnapshot;
      }
      s := Snapshot(Tabulate(tables.users), Tabulate(tables.events));
    }

    /** The rows of one table. */
    function Rows(which: Table): seq<Row>
      reads this
    {
      if which == UsersTable then tables.users else tables.events
    }

    /**
     * One `for … of` loop of `writeData`: upsert the entries of `c` into `which` in order, stopping
     * at the first refused one; `n` is the number of upserts that went through.
     */
    method UpsertEach(which: Table, c: Collection) returns (n: nat)
      requires Valid() && Collections.Wf(c)
      modifies this`tables
      ensures Valid()
      ensures n == Accepted(which, c.keys, faults.rejected)
      ensures Rows(which) == UpsertAll(old(Rows(which)), c, n)
      ensures which == UsersTable ==> tables.events == old(tables.events)
      ensures which == EventsTable ==> tables.users == old(tables.users)
    {
      n := 0;
      while n < |c.keys|
        invariant 0 <= n <= |c.keys|
        invariant Rows(which) == UpsertAll(old(Rows(which)), c, n)
        invariant which == UsersTable ==> tables.events == old(tables.events)
        invariant which == EventsTable ==> tables.users == old(tables.users)
        invariant forall j :: 0 <= j < n ==> (which, c.keys[j]) !in faults.rejected
        invariant Valid()
      {
        var id := c.keys[n];
        if (which, id) in faults.rejected {
          break;
        }
        if which == UsersTable {
          tables := tables.(users := Upsert(tables.users, id, c.records[id]));
        } else {
          tables := tables.(events := Upsert(tables.events, id, c.records[id]));
        }
        n := n + 1;
      }
      AcceptedAt(which, c.keys, faults.rejected, n);
    }

    /** `writeData`: users first, then events; `false` at the first refusal. */
    method WriteData(s: Snapshot) returns (ok: bool)
      requires Valid() && RecordStore.Wf(s)
      modifies this`tables
      ensures Valid()
      ensures (ok, tables) == WriteOutcome(old(tables), faults, s)
    {
      var nu := UpsertEach(UsersTable, s.users);
      if nu < |s.users.keys| {
        return false;
      }
      var ne := UpsertEach(EventsTable, s.events);
      ok := ne == |s.events.keys|;
    }

    /** A delete of one row, refused, like an upsert, when the service refuses changes to that row. */
    method Delete(which: Table, id: string) returns (ok: bool)
      requires Valid()
      modifies this`tables
      ensures Valid()
      ensures ok == ((which, id) !in faults.rejected)
      ensures !ok ==> tables == old(tables)
      ensures ok && which == UsersTable ==> tables == old(tables).(users := DeleteRow(old(tables).users, id))
      ensures ok && which == EventsTable ==> tables == old(tables).(events := DeleteRow(old(tables).events, id))
    {
      if (which, id) in faults.rejected {
        return false;
      }
      if which == UsersTable {
        tables := tables.(users := DeleteRow(tables.users, id));
      } else {
        tables := tables.(events := DeleteRow(tables.events, id));
      }
      return true;
    }
  }
}
