/**
 * The one table a store writes to, created by kv.py:24-25 as
 * `(key PRIMARY KEY, value)`, and the SQL statements kv.py runs against it.
 *
 * The table is a sequence of rows in rowid order: INSERT appends, UPDATE
 * rewrites a row where it stands, DELETE closes the gap. The key column has
 * no type affinity, so a key keeps the storage class it was bound with and
 * the integer 13 and the text '13' are different keys. SQL `=` is never true
 * when either side is NULL, and a UNIQUE column accepts any number of NULLs;
 * only `IS NULL` finds a NULL key.
 */
module Table {
  import opened Wrappers
  import Json

  /** A value bound to the key column, in the storage class SQLite keeps for it. */
  datatype Key =
    | Null              // Python None
    | Int(i: int)       // Python int (and bool)
    | Str(s: string)    // Python str
    | Other(token: nat) // a float or bytes, compared as an opaque token
    | Unsupported(token: nat) // a tuple, list, dict or other object sqlite3 has no adapter for

  datatype Row = Row(key: Key, value: Json.Text)

  /** The range of a SQLite INTEGER, a signed 64-bit integer. */
  const MinInteger := -0x8000_0000_0000_0000
  const MaxInteger := 0x7FFF_FFFF_FFFF_FFFF

  /** `WHERE key = ?` with `param` bound: never true for a NULL on either side. */
  predicate KeyEquals(column: Key, param: Key) {
    param != Null && column == param
  }

  /**
   * The row a point lookup reads first: `WHERE key IS NULL` when `k` is
   * `Null`, `WHERE key = ?` otherwise. Either way a row is selected exactly
   * when its key is `k`.
   */
  function Find(rows: seq<Row>, k: Key): (r: Option<nat>)
    ensures r.Some? ==> r.value < |rows| && rows[r.value].key == k
    ensures forall j | 0 <= j < |rows| && rows[j].key == k :: r.Some? && r.value <= j
  {
    FindFrom(rows, k, 0)
  }

  /** The first row at or after `from` whose key is `k`. */
  function FindFrom(rows: seq<Row>, k: Key, from: nat): (r: Option<nat>)
    requires from <= |rows|
    ensures r.Some? ==> from <= r.value < |rows| && rows[r.value].key == k
    ensures forall j | from <= j < |rows| && rows[j].key == k :: r.Some? && r.value <= j
    decreases |rows| - from
  {
    if from == |rows| then None
    else if rows[from].key == k then Some(from)
    else FindFrom(rows, k, from + 1)
  }

  /** A row that carries `k` with no earlier row carrying it is the one a lookup reads. */
  lemma FindAt(rows: seq<Row>, k: Key, i: nat)
    requires i < |rows| && rows[i].key == k
    requires forall j | 0 <= j < i :: rows[j].key != k
    ensures Find(rows, k) == Some(i)
  {
  }

  /** Lookups see only the key column: tables with the same keys in the same order find the same row. */
  lemma FindSameKeys(a: seq<Row>, b: seq<Row>, k: Key)
    requires |a| == |b| && forall j | 0 <= j < |a| :: a[j].key == b[j].key
    ensures Find(a, k) == Find(b, k)
  {
  }

  /** The constraint the PRIMARY KEY enforces: non-NULL keys are pairwise distinct. */
  ghost predicate UniqueKeys(rows: seq<Row>) {
    forall i, j | 0 <= i < j < |rows| :: !KeyEquals(rows[i].key, rows[j].key)
  }

  /** `SELECT key FROM t`: the keys, one per row, in scan order. */
  function SelectKeys(rows: seq<Row>): (r: seq<Key>)
    ensures |r| == |rows|
    ensures forall i | 0 <= i < |rows| :: r[i] == rows[i].key
  {
    if rows == [] then [] else [rows[0].key] + SelectKeys(rows[1..])
  }

  /** `INSERT INTO t VALUES (?, ?)`: `None` when the key constraint raises IntegrityError. */
  function Insert(rows: seq<Row>, k: Key, text: Json.Text): (r: Option<seq<Row>>)
    ensures r.None? <==> exists i | 0 <= i < |rows| :: KeyEquals(rows[i].key, k)
    ensures r.Some? ==> r.value == rows + [Row(k, text)]
  {
    if Find(rows, k).Some? && k != Null then None else Some(rows + [Row(k, text)])
  }

  /** `UPDATE t SET value=? WHERE key=?`. */
  function Update(rows: seq<Row>, k: Key, text: Json.Text): (r: seq<Row>)
    ensures |r| == |rows|
    ensures forall i | 0 <= i < |rows| ::
      r[i] == if KeyEquals(rows[i].key, k) then Row(k, text) else rows[i]
  {
    if rows == [] then []
    else [if KeyEquals(rows[0].key, k) then Row(k, text) else rows[0]] + Update(rows[1..], k, text)
  }

  /** `DELETE FROM t WHERE key=?`. */
  function Delete(rows: seq<Row>, k: Key): seq<Row> {
    if rows == [] then []
    else if KeyEquals(rows[0].key, k) then Delete(rows[1..], k)
    else [rows[0]] + Delete(rows[1..], k)
  }

  /** The table without its row `i`, the others keeping their order. */
  function Without(rows: seq<Row>, i: nat): seq<Row>
    requires i < |rows|
  {
    rows[..i] + rows[i + 1..]
  }

  /** Rows before `i` keep their place; rows after it move up one. */
  lemma WithoutAt(rows: seq<Row>, i: nat)
    requires i < |rows|
    ensures |Without(rows, i)| == |rows| - 1
    ensures forall j | 0 <= j < |rows| - 1 :: Without(rows, i)[j] == rows[if j < i then j else j + 1]
  {
  }

  /** DELETE keeps exactly the rows whose key does not equal the bound key. */
  lemma {:induction false} DeleteKeeps(rows: seq<Row>, k: Key)
    ensures forall row | row in Delete(rows, k) :: row in rows && !KeyEquals(row.key, k)
    ensures forall row | row in rows && !KeyEquals(row.key, k) :: row in Delete(rows, k)
  {
    if rows != [] {
      DeleteKeeps(rows[1..], k);
      assert forall row | row in rows :: row == rows[0] || row in rows[1..];
    }
  }

  /** Deleting a key no row carries leaves the table as it was; so does deleting NULL. */
  lemma {:induction false} DeleteNothing(rows: seq<Row>, k: Key)
    requires k == Null || Find(rows, k).None?
    ensures Delete(rows, k) == rows
  {
    if rows != [] {
      DeleteNothing(rows[1..], k);
      assert [rows[0]] + rows[1..] == rows;
    }
  }

  /**
   * Deleting a non-NULL key that is present removes exactly the row that
   * carries it and keeps every other row, in order.
   */
  lemma {:induction false} DeleteOne(rows: seq<Row>, k: Key)
    requires UniqueKeys(rows) && k != Null && Find(rows, k).Some?
    ensures Delete(rows, k) == Without(rows, Find(rows, k).value)
  {
    var i := Find(rows, k).value;
    if i == 0 {
      assert Find(rows[1..], k).None? by {
        forall j | 0 <= j < |rows[1..]| ensures rows[1..][j].key != k {
          assert rows[j + 1].key != k by {
            assert !KeyEquals(rows[0].key, rows[j + 1].key);
          }
        }
      }
      DeleteNothing(rows[1..], k);
    } else {
      var tail := rows[1..];
      assert Delete(rows, k) == [rows[0]] + Delete(tail, k);
      FindAt(tail, k, i - 1);
      UniqueTail(rows);
      DeleteOne(tail, k);
      assert Without(rows, i) == [rows[0]] + Without(tail, i - 1) by {
        assert rows[..i] == [rows[0]] + tail[..i - 1];
        assert rows[i + 1..] == tail[i..];
      }
    }
  }

  /** The rows after the first still satisfy the key constraint. */
  lemma UniqueTail(rows: seq<Row>)
    requires UniqueKeys(rows) && rows != []
    ensures UniqueKeys(rows[1..])
  {
  }

  /**
   * Removing a row that does not carry `k` leaves the row a lookup of `k`
   * reads, now one place earlier when it stood after the removed one.
   */
  lemma FindWithout(rows: seq<Row>, i: nat, k: Key)
    requires i < |rows| && rows[i].key != k
    ensures Find(rows, k).None? ==> Find(Without(rows, i), k).None?
    ensures Find(rows, k).Some? && Find(rows, k).value < i ==>
      Find(Without(rows, i), k) == Find(rows, k)
    ensures Find(rows, k).Some? && Find(rows, k).value > i ==>
      Find(Without(rows, i), k) == Some(Find(rows, k).value - 1)
  {
    var after := Without(rows, i);
    WithoutAt(rows, i);
    if Find(rows, k).None? {
      forall j | 0 <= j < |after| ensures after[j].key != k {
        assert after[j] == rows[if j < i then j else j + 1];
      }
    } else {
      var m := Find(rows, k).value;
      var m' := if m < i then m else m - 1;
      forall j | 0 <= j < m' ensures after[j].key != k {
        assert after[j] == rows[if j < i then j else j + 1];
      }
      assert after[m'] == rows[m];
      FindAt(after, k, m');
    }
  }

  /** The key set of a table, as a Python `set(kv)` would collect it. */
  function KeySet(rows: seq<Row>): set<Key> {
    if rows == [] then {} else {rows[0].key} + KeySet(rows[1..])
  }

  /** A key is in the key set exactly when a lookup of it finds a row. */
  lemma {:induction false} KeySetFind(rows: seq<Row>, k: Key)
    ensures k in KeySet(rows) <==> Find(rows, k).Some?
  {
    if rows != [] {
      KeySetFind(rows[1..], k);
      if Find(rows[1..], k).Some? {
        assert rows[Find(rows[1..], k).value + 1].key == k;
      }
      if Find(rows, k).Some? && rows[0].key != k {
        FindAt(rows[1..], k, Find(rows, k).value - 1);
      }
    }
  }

  /**
   * Without NULL keys the constraint makes every row's key distinct, so the
   * row count is the number of distinct keys.
   */
  lemma {:induction false} CountIsDistinctKeys(rows: seq<Row>)
    requires UniqueKeys(rows) && Find(rows, Null).None?
    ensures |rows| == |KeySet(rows)|
  {
    if rows != [] {
      var tail := rows[1..];
      UniqueTail(rows);
      assert Find(tail, Null).None? by {
        forall j | 0 <= j < |tail| ensures tail[j].key != Null {
          assert rows[j + 1].key != Null;
        }
      }
      CountIsDistinctKeys(tail);
      assert Find(tail, rows[0].key).None? by {
        forall j | 0 <= j < |tail| ensures tail[j].key != rows[0].key {
          assert !KeyEquals(rows[0].key, rows[j + 1].key);
        }
      }
      KeySetFind(tail, rows[0].key);
    }
  }
}
