/**
 * kv.py's `KV`: a dictionary-like store whose entries are the rows of one
 * SQLite table, each value kept as its JSON serialization. `kv[k] = v` runs
 * inside a reentrant transaction scope; `del kv[k]` runs without one.
 *
 * The functions at the top say what the store's statements do to a table;
 * the lemmas after them state what `kv[k] = v` and `del kv[k]` promise; the
 * class `KV` holds the table, the `_locks` counter and the transaction
 * statements issued, and its methods are proved against those functions.
 */
module Kv {
  import opened Wrappers
  import Json
  import opened Table
  import Txn

  /** The exceptions the store lets through to its caller. */
  datatype Error =
    | KeyError
    | OperationalError(message: string)  // sqlite3.OperationalError
    | DecodeError                         // json.loads rejected the stored text
    | OverflowError                       // an int key outside the range of a SQLite INTEGER
    | UnsupportedType                     // sqlite3.ProgrammingError (InterfaceError on older versions)

  /** sqlite3's message when a write waited out its timeout on another connection's lock. */
  const Locked := "database is locked"

  /**
   * Binding `k` as the `?` parameter of a statement (kv.py:39, 53-54, 61):
   * sqlite3 raises OverflowError for an int outside the range of a SQLite
   * INTEGER and refuses an object it has no adapter for. `None` binds as NULL.
   */
  function Bind(k: Key): Outcome<Error> {
    match k
    case Int(i) => if MinInteger <= i <= MaxInteger then Pass else Fail(OverflowError)
    case Unsupported(_) => Fail(UnsupportedType)
    case _ => Pass
  }

  /** Every stored key is one that could be bound, since only bound keys are ever inserted. */
  ghost predicate AllBound(rows: seq<Row>) {
    forall row | row in rows :: Bind(row.key).Pass?
  }

  /** A key some row carries is one that binds. */
  lemma FoundIsBound(rows: seq<Row>, k: Key)
    requires AllBound(rows)
    ensures Find(rows, k).Some? ==> Bind(k).Pass?
  {
    if Find(rows, k).Some? {
      assert rows[Find(rows, k).value] in rows;
    }
  }

  /**
   * `kv[k]` on a table once `k` is bound (kv.py:35-43): the first row the lookup selects,
   * parsed, or KeyError when no row is selected.
   */
  function GetItemOf(rows: seq<Row>, k: Key): Result<Json.Value, Error> {
    match Find(rows, k)
    case None => Err(KeyError)
    case Some(i) =>
      (match Json.Loads(rows[i].value)
       case Some(v) => Ok(v)
       case None => Err(DecodeError))
  }

  /**
   * The table after the statements of `kv[k] = v` (kv.py:52-57): INSERT, and
   * when that raises IntegrityError, UPDATE instead.
   */
  function Upsert(rows: seq<Row>, k: Key, text: Json.Text): seq<Row> {
    match Insert(rows, k, text)
    case Some(inserted) => inserted
    case None => Update(rows, k, text)
  }

  /** Every stored text is one that `json.loads` accepts. */
  ghost predicate Decodable(rows: seq<Row>) {
    forall row | row in rows :: Json.Loads(row.value).Some?
  }

  /**
   * A value set under a key is what a lookup of that key returns, nested
   * documents included. For `None` this holds while no other row has a NULL
   * key, as on a new store.
   */
  lemma SetThenGet(rows: seq<Row>, k: Key, v: Json.Value)
    requires k != Null || Find(rows, Null).None?
    ensures GetItemOf(Upsert(rows, k, Json.Dumps(v)), k) == Ok(v)
  {
    var text := Json.Dumps(v);
    var after := Upsert(rows, k, text);
    Json.LoadsDumps(v);
    match Find(rows, k)
    case None =>
      assert after == rows + [Row(k, text)];
      FindAt(after, k, |rows|);
    case Some(i) =>
      assert after == Update(rows, k, text);
      FindAt(after, k, i);
  }

  /**
   * Setting one key leaves what every other key looks up unchanged; keys
   * differ by storage class, so `13` and `"13"` do not see each other.
   */
  lemma SetLeavesOtherKeys(rows: seq<Row>, k: Key, other: Key, text: Json.Text)
    requires other != k
    ensures GetItemOf(Upsert(rows, k, text), other) == GetItemOf(rows, other)
  {
    match Insert(rows, k, text)
    case Some(_) =>
      AppendLeavesOtherKeys(rows, Row(k, text), other);
    case None =>
      UpdateLeavesOtherKeys(rows, k, text, other);
  }

  /** Appending a row that does not carry `other` leaves what `other` looks up. */
  lemma AppendLeavesOtherKeys(rows: seq<Row>, row: Row, other: Key)
    requires row.key != other
    ensures GetItemOf(rows + [row], other) == GetItemOf(rows, other)
  {
    if Find(rows, other).Some? {
      FindAt(rows + [row], other, Find(rows, other).value);
    }
  }

  /** An UPDATE of one key leaves what every other key looks up. */
  lemma UpdateLeavesOtherKeys(rows: seq<Row>, k: Key, text: Json.Text, other: Key)
    requires other != k
    ensures GetItemOf(Update(rows, k, text), other) == GetItemOf(rows, other)
  {
    FindSameKeys(Update(rows, k, text), rows, other);
  }

  /** Setting a key no row carries appends exactly one row. */
  lemma SetFresh(rows: seq<Row>, k: Key, text: Json.Text)
    requires Find(rows, k).None?
    ensures Upsert(rows, k, text) == rows + [Row(k, text)]
  {
  }

  /**
   * Setting a non-NULL key that is present replaces that row's value where
   * it stands and touches nothing else, so the row count and the keys stay.
   */
  lemma SetExisting(rows: seq<Row>, k: Key, text: Json.Text)
    requires UniqueKeys(rows) && k != Null && Find(rows, k).Some?
    ensures Upsert(rows, k, text) == rows[Find(rows, k).value := Row(k, text)]
    ensures SelectKeys(Upsert(rows, k, text)) == SelectKeys(rows)
  {
    var i := Find(rows, k).value;
    var after := Upsert(rows, k, text);
    assert after == Update(rows, k, text);
    forall j | 0 <= j < |rows| && j != i
      ensures after[j] == rows[j]
    {
      if j < i {
        assert !KeyEquals(rows[j].key, rows[i].key);
      } else {
        assert !KeyEquals(rows[i].key, rows[j].key);
      }
    }
    assert after == rows[i := Row(k, text)];
  }

  /** Setting text that parses keeps the key constraint and stores only parseable text. */
  lemma SetKeepsValid(rows: seq<Row>, k: Key, text: Json.Text)
    requires UniqueKeys(rows) && Decodable(rows) && Json.Loads(text).Some?
    ensures UniqueKeys(Upsert(rows, k, text))
    ensures Decodable(Upsert(rows, k, text))
  {
    var after := Upsert(rows, k, text);
    match Insert(rows, k, text)
    case Some(_) =>
      forall i, j | 0 <= i < j < |after| ensures !KeyEquals(after[i].key, after[j].key) {
        if j == |rows| {
          assert after[i] == rows[i];
        }
      }
    case None =>
      forall row | row in after ensures Json.Loads(row.value).Some? {
        var i :| 0 <= i < |after| && after[i] == row;
        assert row == Row(k, text) || row == rows[i];
      }
  }

  /**
   * Setting `None` always appends a row, since SQL `=` never finds a clash
   * with NULL: a second `kv[None] = v` stores a second NULL row.
   */
  lemma SetNullAppends(rows: seq<Row>, text: Json.Text)
    ensures Upsert(rows, Null, text) == rows + [Row(Null, text)]
  {
  }

  /** Setting a key that binds keeps every stored key one that binds. */
  lemma SetKeepsBound(rows: seq<Row>, k: Key, text: Json.Text)
    requires AllBound(rows) && Bind(k).Pass?
    ensures AllBound(Upsert(rows, k, text))
  {
    var after := Upsert(rows, k, text);
    forall row | row in after ensures Bind(row.key).Pass? {
      var i :| 0 <= i < |after| && after[i] == row;
      if i < |rows| {
        assert rows[i] in rows;
        assert row.key == k || row.key == rows[i].key;
      }
    }
  }

  /**
   * Deleting a non-NULL key that is present removes one row, after which
   * that key raises KeyError and every other key looks up what it did before.
   */
  lemma DelThenGet(rows: seq<Row>, k: Key)
    requires UniqueKeys(rows) && k != Null && Find(rows, k).Some?
    ensures |Delete(rows, k)| == |rows| - 1
    ensures GetItemOf(Delete(rows, k), k) == Err(KeyError)
    ensures forall other | other != k :: GetItemOf(Delete(rows, k), other) == GetItemOf(rows, other)
  {
    var i := Find(rows, k).value;
    DeleteOne(rows, k);
    WithoutAt(rows, i);
    var after := Delete(rows, k);
    assert Find(after, k).None? by {
      forall j | 0 <= j < |after| ensures after[j].key != k {
        if j >= i {
          assert !KeyEquals(rows[i].key, rows[j + 1].key);
        }
      }
    }
    forall other | other != k
      ensures GetItemOf(after, other) == GetItemOf(rows, other)
    {
      WithoutLeavesOtherKeys(rows, i, other);
    }
  }

  /** Removing a row that does not carry `other` leaves what `other` looks up. */
  lemma WithoutLeavesOtherKeys(rows: seq<Row>, i: nat, other: Key)
    requires i < |rows| && rows[i].key != other
    ensures GetItemOf(Without(rows, i), other) == GetItemOf(rows, other)
  {
    FindWithout(rows, i, other);
    WithoutAt(rows, i);
  }

  /** Deleting keeps the key constraint and the stored text parseable. */
  lemma DelKeepsValid(rows: seq<Row>, k: Key)
    requires UniqueKeys(rows) && Decodable(rows)
    ensures UniqueKeys(Delete(rows, k)) && Decodable(Delete(rows, k))
  {
    if k == Null || Find(rows, k).None? {
      DeleteNothing(rows, k);
    } else {
      var i := Find(rows, k).value;
      DeleteOne(rows, k);
      WithoutAt(rows, i);
      DeleteKeeps(rows, k);
      var after := Delete(rows, k);
      forall a, b | 0 <= a < b < |after| ensures !KeyEquals(after[a].key, after[b].key) {
        var a', b' := if a < i then a else a + 1, if b < i then b else b + 1;
        assert !KeyEquals(rows[a'].key, rows[b'].key);
      }
    }
  }

  /** Deleting keeps every stored key one that binds. */
  lemma DelKeepsBound(rows: seq<Row>, k: Key)
    requires AllBound(rows)
    ensures AllBound(Delete(rows, k))
  {
    DeleteKeeps(rows, k);
  }

  /**
   * One store: the table its rows live in, the `_locks` counter, and the
   * transaction statements it has issued on its connection.
   */
  class KV {
    /** The namespace, fixed for the store's lifetime. */
    const table: string
    var rows: seq<Row>
    var locks: nat
    var log: seq<Txn.Event>

    ghost predicate Valid()
      reads this
    {
      && UniqueKeys(rows)
      && Decodable(rows)
      && AllBound(rows)
      && Txn.Consistent(Txn.Scope(locks, log))
    }

    /** kv.py:20-26 on a new database: the table is created empty and no scope is held. */
    constructor(table: string)
      ensures Valid()
      ensures this.table == table && rows == [] && locks == 0 && log == []
    {
      this.table := table;
      rows := [];
      locks := 0;
      log := [];
    }

    /** `len(kv)`: `SELECT COUNT(*)` (kv.py:31-33). */
    method Len() returns (n: nat)
      requires Valid()
      ensures n == |rows| == |SelectKeys(rows)|
      ensures Find(rows, Null).None? ==> n == |KeySet(rows)|
    {
      n := |rows|;
      if Find(rows, Null).None? {
        CountIsDistinctKeys(rows);
      }
    }

    /**
     * `kv[k]` (kv.py:35-43): the first selected row's value, KeyError when
     * no row is selected, and the binding error when `k` cannot be bound.
     */
    method GetItem(k: Key) returns (r: Result<Json.Value, Error>)
      requires Valid()
      ensures Bind(k).Fail? ==> r == Err(Bind(k).error)
      ensures Bind(k).Pass? ==> r == GetItemOf(rows, k)
      ensures r.Ok? <==> k in KeySet(rows)
      ensures r.Err? && Bind(k).Pass? ==> r.error == KeyError
    {
      KeySetFind(rows, k);
      FoundIsBound(rows, k);
      if Bind(k).Fail? {
        return Err(Bind(k).error);
      }
      var i := 0;
      while i < |rows|
        invariant 0 <= i <= |rows|
        invariant forall j | 0 <= j < i :: rows[j].key != k
      {
        if rows[i].key == k {
          FindAt(rows, k, i);
          r := match Json.Loads(rows[i].value)
            case Some(v) => Ok(v)
            case None => Err(DecodeError);
          return;
        }
        i := i + 1;
      }
      r := Err(KeyError);
    }

    /** `kv.get(k, default)`, inherited from Mapping: `default` in place of KeyError, and no other error. */
    method Get(k: Key, default: Json.Value) returns (r: Result<Json.Value, Error>)
      requires Valid()
      ensures Bind(k).Fail? ==> r == Err(Bind(k).error)
      ensures Bind(k).Pass? && k !in KeySet(rows) ==> r == Ok(default)
      ensures k in KeySet(rows) ==> r == GetItemOf(rows, k) && r.Ok?
    {
      r := GetItem(k);
      if r == Err(KeyError) {
        r := Ok(default);
      }
    }

    /** `k in kv`, inherited from Mapping: a lookup that succeeds; errors other than KeyError pass through. */
    method Contains(k: Key) returns (r: Result<bool, Error>)
      requires Valid()
      ensures Bind(k).Pass? ==> r == Ok(k in KeySet(rows))
      ensures Bind(k).Fail? ==> r == Err(Bind(k).error)
    {
      var item := GetItem(k);
      r := match item
        case Ok(_) => Ok(true)
        case Err(KeyError) => Ok(false)
        case Err(e) => Err(e);
    }

    /** `iter(kv)`: the keys of `SELECT key` (kv.py:45-47), one per row. */
    method Iter() returns (keys: seq<Key>)
      ensures keys == SelectKeys(rows)
      ensures |keys| == |rows|
      ensures forall k :: k in keys <==> k in KeySet(rows)
    {
      keys := [];
      for i := 0 to |rows|
        invariant |keys| == i
        invariant forall j | 0 <= j < i :: keys[j] == rows[j].key
      {
        keys := keys + [rows[i].key];
      }
      forall k ensures k in keys <==> k in KeySet(rows) {
        KeySetFind(rows, k);
        if Find(rows, k).Some? {
          assert keys[Find(rows, k).value] == k;
        }
      }
    }

    /**
     * Entering `with kv.lock()` (kv.py:66-69): BEGIN IMMEDIATE when no scope
     * is held, and if that raises, the counter does not move.
     */
    method LockEnter(busy: bool) returns (r: Outcome<Error>)
      requires Valid()
      modifies this
      ensures Valid() && rows == old(rows)
      ensures Txn.Enter(Txn.Scope(old(locks), old(log)), busy).None? ==>
        r == Fail(OperationalError(Locked)) && locks == old(locks) && log == old(log)
      ensures Txn.Enter(Txn.Scope(old(locks), old(log)), busy).Some? ==>
        r == Pass && Txn.Scope(locks, log) == Txn.Enter(Txn.Scope(old(locks), old(log)), busy).value
    {
      Txn.EnterExitConsistent(Txn.Scope(locks, log), busy);
      if locks == 0 {
        if busy {
          return Fail(OperationalError(Locked));
        }
        log := log + [Txn.Begin];
      }
      locks := locks + 1;
      r := Pass;
    }

    /** Leaving the scope (kv.py:72-75): COMMIT when the counter returns to zero. */
    method LockExit()
      requires Valid() && locks > 0
      modifies this
      ensures Valid() && rows == old(rows)
      ensures Txn.Scope(locks, log) == Txn.Exit(Txn.Scope(old(locks), old(log)))
    {
      Txn.EnterExitConsistent(Txn.Scope(locks, log), false);
      locks := locks - 1;
      if locks == 0 {
        log := log + [Txn.Commit];
      }
    }

    /**
     * `kv[k] = v` (kv.py:49-57): the upsert inside a scope. The counter ends
     * where it started; BEGIN and COMMIT are issued only when no outer scope
     * is held; when BEGIN raises, nothing is written. A key that cannot be
     * bound makes the INSERT raise an error the upsert does not catch: the
     * scope still closes, and nothing is written.
     */
    method SetItem(k: Key, v: Json.Value, busy: bool) returns (r: Outcome<Error>)
      requires Valid()
      modifies this
      ensures Valid() && locks == old(locks)
      ensures old(locks) == 0 && busy ==>
        r == Fail(OperationalError(Locked)) && rows == old(rows) && log == old(log)
      ensures !(old(locks) == 0 && busy) ==>
        && r == Bind(k)
        && rows == (if Bind(k).Pass? then Upsert(old(rows), k, Json.Dumps(v)) else old(rows))
        && log == old(log) + (if old(locks) == 0 then [Txn.Begin, Txn.Commit] else [])
    {
      var text := Json.Dumps(v);
      r := LockEnter(busy);
      if r.Fail? {
        return;
      }
      r := Bind(k);
      if r.Pass? {
        Json.LoadsDumps(v);
        Write(k, text);
      }
      LockExit();
    }

    /**
     * The statements of `kv[k] = v` inside its scope (kv.py:52-57): INSERT,
     * and UPDATE when the key constraint raises IntegrityError.
     */
    method Write(k: Key, text: Json.Text)
      requires Valid() && Bind(k).Pass? && Json.Loads(text).Some?
      modifies this
      ensures Valid() && locks == old(locks) && log == old(log)
      ensures rows == Upsert(old(rows), k, text)
    {
      SetKeepsValid(rows, k, text);
      SetKeepsBound(rows, k, text);
      match Insert(rows, k, text) {
        case Some(inserted) =>
          rows := inserted;
        case None =>
          rows := Update(rows, k, text);
      }
    }

    /**
     * `del kv[k]` (kv.py:59-63): KeyError unless the key is present, then
     * `DELETE ... WHERE key=?` outside any scope of its own, which raises
     * when another connection holds the lock and no scope of ours is held.
     * A key that cannot be bound raises already in the membership test.
     */
    method DelItem(k: Key, busy: bool) returns (r: Outcome<Error>)
      requires Valid()
      modifies this
      ensures Valid() && locks == old(locks) && log == old(log)
      ensures Bind(k).Fail? ==> r == Fail(Bind(k).error) && rows == old(rows)
      ensures Bind(k).Pass? && k !in KeySet(old(rows)) ==> r == Fail(KeyError) && rows == old(rows)
      ensures k in KeySet(old(rows)) && old(locks) == 0 && busy ==>
        r == Fail(OperationalError(Locked)) && rows == old(rows)
      ensures k in KeySet(old(rows)) && !(old(locks) == 0 && busy) ==>
        r == Pass && rows == Delete(old(rows), k)
    {
      KeySetFind(rows, k);
      FoundIsBound(rows, k);
      var present := Contains(k);
      if present != Ok(true) {
        r := match present
          case Err(e) => Fail(e)
          case Ok(_) => Fail(KeyError);
        return;
      }
      if locks == 0 && busy {
        return Fail(OperationalError(Locked));
      }
      DelKeepsValid(rows, k);
      DelKeepsBound(rows, k);
      rows := Delete(rows, k);
      r := Pass;
    }
  }

  /**
   * tests.py:161-166: a value set inside two nested scopes is there after
   * they close, and the whole group issued one BEGIN and one COMMIT. With
   * a key that cannot be bound, the write and the read raise the binding
   * error instead.
   */
  method LockDuringLockStillSaves(k: Key, v: Json.Value) returns (r: Result<Json.Value, Error>, log: seq<Txn.Event>)
    ensures Bind(k).Pass? ==> r == Ok(v)
    ensures Bind(k).Fail? ==> r == Err(Bind(k).error)
    ensures log == [Txn.Begin, Txn.Commit]
  {
    var kv := new KV("data");
    var outer := kv.LockEnter(false);
    var inner := kv.LockEnter(false);
    var written := kv.SetItem(k, v, false);
    kv.LockExit();
    kv.LockExit();
    SetThenGet([], k, v);
    r := kv.GetItem(k);
    log := kv.log;
  }

  /**
   * tests.py:135-156: while another connection holds the lock, both entering
   * a scope and setting a value raise "database is locked", and nothing is
   * written or issued.
   */
  method LockFailsIfLocked(k: Key, v: Json.Value) returns (scope: Outcome<Error>, write: Outcome<Error>, n: nat, log: seq<Txn.Event>)
    ensures scope == Fail(OperationalError("database is locked"))
    ensures write == Fail(OperationalError("database is locked"))
    ensures n == 0 && log == []
  {
    var kv := new KV("data");
    scope := kv.LockEnter(true);
    write := kv.SetItem(k, v, true);
    n := kv.Len();
    log := kv.log;
  }

  /**
   * kv.py:49-57 with the int key 2**63, one past the INTEGER range: BEGIN is
   * issued, the INSERT raises OverflowError, which is not the IntegrityError
   * the upsert catches, the scope still commits, and no row is stored; a
   * later lookup of that key raises the same error.
   */
  method SetOverflowingKey(v: Json.Value) returns (write: Outcome<Error>, n: nat, read: Result<Json.Value, Error>, log: seq<Txn.Event>)
    ensures write == Fail(OverflowError) && read == Err(OverflowError)
    ensures n == 0 && log == [Txn.Begin, Txn.Commit]
  {
    var kv := new KV("data");
    var key := Int(MaxInteger + 1);
    write := kv.SetItem(key, v, false);
    n := kv.Len();
    read := kv.GetItem(key);
    log := kv.log;
  }
}
