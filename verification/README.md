# kv: a dictionary-like store on one SQLite table, in Dafny

`kv.py` defines `KV`, a mutable mapping whose entries are the rows of one
SQLite table created as `(key PRIMARY KEY, value)`. A value is stored as its
JSON serialization and parsed again on every read. `kv[k] = v` runs inside
`lock()`, a reentrant transaction scope; `del kv[k]` runs without one. The
outermost entry issues `BEGIN IMMEDIATE TRANSACTION` and the outermost exit
issues `COMMIT`. A `_locks` counter keeps inner scopes from doing either.

This project models that class and proves what it promises.

- `wrappers.dfy` (`Wrappers`): `Option`, `Result` and `Outcome`. An
  exception the Python code raises becomes an `Err`/`Fail` value.
- `json.dfy` (`Json`): the values the store accepts, and a serializer
  `Dumps` with a parser `Loads` standing in for `json.dumps`/`json.loads`.
  The serialized form is a token stream rather than JSON text. The round
  trip `Loads(Dumps(v)) == Some(v)` is proved, not assumed.
- `table.dfy` (`Table`): the table as a sequence of rows in rowid order,
  with the SQL statements `KV` runs on it. The key column has no type
  affinity, so `Int(13)` and `Str("13")` are different keys. SQL `=` never
  matches NULL, and the key constraint lets any number of NULL keys in. Only
  the `IS NULL` lookup of `__getitem__` finds a NULL key. Floats and bytes
  are opaque `Other` keys; tuples, lists, dicts and other objects sqlite3 has
  no adapter for are `Unsupported` keys.
- `txn.dfy` (`Txn`): the `_locks` counter and the log of `BEGIN`/`COMMIT`
  statements. It holds the enter and exit steps of `lock()` and the lemma
  that nested scopes open and commit one transaction.
- `kv.dfy` (`Kv`): the class `KV`. Its fields are the rows, the counter and
  the statement log. Its methods are proved against the functions of
  `Table` and `Txn`. The module also holds the lemmas about set and delete,
  and three scenarios, two of them from the test suite.

The object invariant `KV.Valid()` has four parts. Non-NULL keys are
distinct. Every stored text parses. Every stored key is one sqlite3 can
bind. `BEGIN` and `COMMIT` alternate, and a
transaction is open exactly while `_locks > 0`. Another connection holding
the database's write lock is modelled by a `busy` argument. When it is true
and no scope of this store is held, `BEGIN` (and an unscoped `DELETE`)
raises `OperationalError("database is locked")`.

A key is bound as a statement parameter (`Kv.Bind`). sqlite3 raises
OverflowError for an int outside the signed 64-bit range of a SQLite INTEGER,
and ProgrammingError (InterfaceError on older versions) for an object it has
no adapter for. Neither is the IntegrityError `__setitem__` catches. So
`kv[2**63] = v` issues BEGIN, raises at the INSERT, still issues COMMIT, and
stores nothing. `kv[2**63]`, `2**63 in kv` and `del kv[2**63]` raise the
same error instead of KeyError or `False`.

A NULL key behaves as the SQL makes it behave. A second `kv[None] = v`
inserts another row, and `del kv[None]` passes the membership test but
deletes nothing. The lemmas state these facts about `None` too: deleting it
leaves the table as it was, setting it does not change any other key's
lookup, and setting it always appends a row, even when a NULL row exists.
Reading back a value set under `None` is claimed only for a table without a
NULL row; with one, the earlier row is read.

## Model

| member | source | states |
|---|---|---|
| `Json.ParseDumps` | kv.py:41 | parsing the serialization of a value, followed by any further tokens, gives back that value and exactly those tokens |
| `Json.LoadsDumps` | tests.py:128-133 | `loads(dumps(v)) == v` for every value, nested arrays and objects included |
| `Json.Dumps` | kv.py:50 | `json.dumps`; it has no ensures of its own, and `ParseDumps` and `LoadsDumps` carry its facts |
| `Json.Loads` | kv.py:41 | `json.loads`: a whole document with no trailing tokens; it has no ensures of its own, and `LoadsDumps` carries its facts |
| `Table.Find` | kv.py:36-40 | the row a lookup reads carries the key and no earlier row does; there is none exactly when no row carries the key |
| `Table.SelectKeys` | kv.py:45-47 | `SELECT key` yields one key per row, the key of that row |
| `Table.Insert` | kv.py:53-55 | INSERT raises IntegrityError exactly when some row already carries the same non-NULL key; otherwise it appends the row |
| `Table.Update` | kv.py:56-57 | UPDATE keeps the row count and replaces the value of exactly the rows whose key equals the non-NULL key, leaving all others |
| `Table.Delete` | kv.py:61 | `DELETE ... WHERE key=?`; it has no ensures of its own, and `DeleteKeeps`, `DeleteNothing` and `DeleteOne` carry its facts |
| `Table.DeleteKeeps` | kv.py:61 | DELETE keeps exactly the rows whose key does not equal the bound key under SQL `=`, and no other rows |
| `Table.DeleteNothing` | kv.py:59-61 | deleting a key that no row carries, or the NULL key, leaves the table unchanged |
| `Table.DeleteOne` | kv.py:61 | on a table with distinct keys, deleting a present non-NULL key removes exactly its row and keeps the others in order |
| `Table.KeySetFind` | kv.py:36-40 | a key belongs to the set of stored keys exactly when the lookup of `kv[k]` finds a row for it |
| `Table.CountIsDistinctKeys` | kv.py:31-33 | without NULL keys, the row count equals the number of distinct keys |
| `Txn.Enter` | kv.py:67-69 | entering a scope; it has no ensures of its own, and `EnterExitConsistent`, `Nest` and `NestCommitsOnce` carry its facts |
| `Txn.Exit` | kv.py:72-75 | leaving a scope; it has no ensures of its own, and `EnterExitConsistent`, `Nest` and `NestCommitsOnce` carry its facts |
| `Txn.EnterExitConsistent` | kv.py:66-75 | entering and leaving a scope keep BEGIN and COMMIT alternating, with a transaction open exactly while the counter is positive |
| `Txn.Nest` | kv.py:66-75 | after any number of nested scopes are entered and left, the counter is back where it started |
| `Txn.NestInsideHeld` | kv.py:67-75 | scopes entered while a scope is held issue no statement and restore the counter |
| `Txn.NestCommitsOnce` | kv.py:66-75 | nested scopes entered with the counter at zero issue exactly one BEGIN and one COMMIT; if BEGIN raises, they fail with nothing issued |
| `Kv.Bind` | kv.py:39 | binding a key as a statement parameter: OverflowError outside the 64-bit range, a type error for an object without an adapter; it has no ensures of its own, and `FoundIsBound` and the methods' contracts carry its facts |
| `Kv.FoundIsBound` | kv.py:53-54 | every key a stored row carries is one that binds, since only bound keys are inserted |
| `Kv.GetItemOf` | kv.py:35-43 | the lookup once the key is bound; it has no ensures of its own, and `SetThenGet`, `SetLeavesOtherKeys`, `DelThenGet` and `KV.GetItem` carry its facts |
| `Kv.Upsert` | kv.py:52-57 | INSERT, or UPDATE when it raises IntegrityError; it has no ensures of its own, and `SetFresh`, `SetExisting`, `SetThenGet`, `SetLeavesOtherKeys` and `SetKeepsValid` carry its facts |
| `Kv.SetThenGet` | kv.py:49-57 | after `kv[k] = v`, `kv[k]` returns `v`; for `None` this holds on a table without a NULL row |
| `Kv.SetLeavesOtherKeys` | kv.py:49-57 | setting one key does not change what any other key looks up, so `13` and `"13"` are independent |
| `Kv.AppendLeavesOtherKeys` | kv.py:53-54 | appending a row that does not carry a key leaves what that key looks up |
| `Kv.UpdateLeavesOtherKeys` | kv.py:56-57 | an UPDATE of one key leaves what every other key looks up |
| `Kv.SetFresh` | kv.py:53-54 | setting a key that no row carries appends exactly one row |
| `Kv.SetExisting` | kv.py:55-57 | setting a present non-NULL key replaces only that row's value, in place; the row count and the keys are unchanged |
| `Kv.SetKeepsValid` | kv.py:49-57 | setting text that parses, as `json.dumps` output does, keeps non-NULL keys distinct and stores only text that parses |
| `Kv.SetNullAppends` | kv.py:53-55 | setting `None` always appends a row, so a second `kv[None] = v` stores a second NULL row |
| `Kv.SetKeepsBound` | kv.py:53-57 | setting a key that binds keeps every stored key one that binds |
| `Kv.DelThenGet` | kv.py:59-61 | deleting a present non-NULL key removes one row; the key then raises KeyError and every other key reads as before |
| `Kv.WithoutLeavesOtherKeys` | kv.py:35-43 | removing a row that does not carry a key leaves what that key looks up |
| `Kv.DelKeepsValid` | kv.py:59-61 | deleting keeps non-NULL keys distinct and every stored text parseable |
| `Kv.DelKeepsBound` | kv.py:59-61 | deleting keeps every stored key one that binds |
| `Kv.KV.constructor` | kv.py:20-26 | a new store has no rows, a zero counter and no statements issued, and its namespace is fixed |
| `Kv.KV.Len` | kv.py:31-33 | `len` is the row count and the number of keys iteration yields; without NULL keys it is the number of distinct keys |
| `Kv.KV.GetItem` | kv.py:35-43 | the lookup loop returns the parsed value of the first selected row; it succeeds exactly when the key is present; otherwise it raises KeyError, or the binding error for a key that cannot be bound |
| `Kv.KV.Get` | tests.py:43-63 | `get(k, default)` returns `default` when a bindable `k` is absent, the stored value when `k` is present, and the binding error otherwise |
| `Kv.KV.Contains` | tests.py:50-55 | `k in kv` is true exactly when some row carries `k`; a key that cannot be bound raises instead |
| `Kv.KV.Iter` | kv.py:45-47 | iteration yields one key per row, and a key is yielded exactly when it is present |
| `Kv.KV.LockEnter` | kv.py:66-69 | BEGIN is issued only when the counter is zero; if it raises, the counter and the log are unchanged; otherwise the counter goes up by one |
| `Kv.KV.LockExit` | kv.py:70-75 | the counter goes down by one, and COMMIT is issued exactly when it reaches zero |
| `Kv.KV.SetItem` | kv.py:49-57 | the upsert runs inside a scope; the counter is unchanged afterwards; BEGIN and COMMIT are added only when no scope was held; when BEGIN raises, nothing is written; a key that cannot be bound raises the binding error after BEGIN, the scope still commits, and nothing is written |
| `Kv.KV.Write` | kv.py:52-57 | inside the scope, given text that parses, the rows become the upsert of the key, the invariant is kept, and the counter and the log are untouched |
| `Kv.KV.DelItem` | kv.py:59-63 | a key that cannot be bound raises the binding error and changes nothing; an absent key raises KeyError and changes nothing; a present key is deleted without a scope; under contention with no scope held it raises and changes nothing |
| `Kv.LockDuringLockStillSaves` | tests.py:161-166 | a value set inside two nested scopes under a bindable key is read back, and one BEGIN and one COMMIT were issued |
| `Kv.SetOverflowingKey` | kv.py:49-57 | `kv[2**63] = v` on a new store raises OverflowError after BEGIN, the scope commits, no row is stored, and `kv[2**63]` raises OverflowError |
| `Kv.LockFailsIfLocked` | tests.py:135-156 | with another connection holding the lock, both `lock()` and `kv[k] = v` raise "database is locked", and nothing is stored or issued |

## Left out

- The command-line front end `main()` (kv.py:78-107) is left out. It is argument parsing, printing and exit codes.
- The sqlite3 connection is left out, along with the database path, the timeout value and the `%s` splicing of the table name into SQL. A store starts on a new, empty table. Persistence across instances and namespaces sharing one file are not modelled.
- Contention between connections, threads and processes is not modelled. It is reduced to the `busy` argument, which says that another connection holds the write lock for longer than the timeout.
- `COMMIT` is assumed to succeed, and reads are assumed never to contend for the lock.
- The JSON text format and the simplejson/json choice are left out. The serialized form is a token stream, and numbers are integers only, so floating point is not modelled. Python values that `json.dumps` rejects, and the ones it changes (a tuple read back as a list), are outside the `Value` type.
- Float and bytes keys are opaque `Other` tokens, and objects without an adapter are opaque `Unsupported` tokens. SQLite's numeric comparison between an integer key and an equal float key (13 and 13.0) is not modelled, nor are adapters registered with `sqlite3.register_adapter`.
- Kv.KV.Get: the default is narrowed to a `Json.Value`, where `Mapping.get` accepts any object; `kv.get(k)` is `Get(k, Json.Null)`.
- Json.LoadsDumps: an `Object` may list a member name twice, which no Python dict does. On such text `json.loads` keeps only the last duplicate, while the token parser keeps every member, so the round trip is meant for objects with distinct names.
- Kv.KV.Iter: returns the keys as a list in rowid order. The source gives a lazy generator, and SQLite may instead scan the key's index, so only the order-free facts about the keys are meant as promises.
- Mapping and MutableMapping methods other than `get` and `in` (`update`, `pop`, `setdefault`, `keys`, ...) are inherited library code, not part of kv.py.
- The body of a `with kv.lock():` block is the caller's code. The model provides the entry step (`LockEnter`) and the exit step (`LockExit`). The exit step runs whether or not the body raised.
