/**
 * The reentrant transaction scope of `KV.lock()` (kv.py:65-75).
 *
 * The connection runs with `isolation_level = None`, so the only
 * transactions are the ones this scope opens and closes explicitly: entering
 * the outermost scope issues `BEGIN IMMEDIATE TRANSACTION`, leaving it
 * issues `COMMIT`, and the scopes nested inside it only move the `_locks`
 * counter. The statements issued are recorded in a log of events.
 */
module Txn {
  import opened Wrappers

  /** An explicit transaction statement issued on the connection. */
  datatype Event =
    | Begin   // BEGIN IMMEDIATE TRANSACTION
    | Commit  // COMMIT

  /** What the scope reads and writes: the `_locks` counter and the statements issued so far. */
  datatype Scope = Scope(locks: nat, log: seq<Event>)

  /**
   * BEGIN and COMMIT alternate, starting with BEGIN, and a transaction is
   * open (the last statement was BEGIN) exactly while the counter is positive.
   */
  ghost predicate Consistent(s: Scope) {
    && (forall i | 0 <= i < |s.log| :: s.log[i] == if i % 2 == 0 then Begin else Commit)
    && (s.locks > 0 <==> |s.log| % 2 == 1)
  }

  /**
   * Entering `with kv.lock()`. `busy` says that another connection holds the
   * write reservation for longer than the timeout, so that BEGIN raises
   * OperationalError; `None` is that failure, raised before the counter moves.
   */
  function Enter(s: Scope, busy: bool): Option<Scope> {
    if s.locks == 0 then
      if busy then None else Some(Scope(1, s.log + [Begin]))
    else Some(Scope(s.locks + 1, s.log))
  }

  /** Leaving the scope, on every exit path of its body (the `finally` clause). */
  function Exit(s: Scope): Scope
    requires s.locks > 0
  {
    if s.locks == 1 then Scope(0, s.log + [Commit]) else Scope(s.locks - 1, s.log)
  }

  /** Entering and leaving keep BEGIN and COMMIT paired with the counter. */
  lemma EnterExitConsistent(s: Scope, busy: bool)
    requires Consistent(s)
    ensures Enter(s, busy).Some? ==> Consistent(Enter(s, busy).value)
    ensures s.locks > 0 ==> Consistent(Exit(s))
  {
  }

  /**
   * `depth` scopes, each nested in the one before, entered and then left.
   * `None` when entering the outermost one raised.
   */
  function Nest(s: Scope, depth: nat, busy: bool): (r: Option<Scope>)
    ensures r.Some? ==> r.value.locks == s.locks
    decreases depth
  {
    if depth == 0 then Some(s)
    else match Enter(s, busy)
      case None => None
      case Some(inner) =>
        (match Nest(inner, depth - 1, busy)
         case None => None
         case Some(after) => Some(Exit(after)))
  }

  /** Scopes nested inside a held scope issue nothing and leave the counter as they found it. */
  lemma {:induction false} NestInsideHeld(s: Scope, depth: nat, busy: bool)
    requires s.locks > 0
    ensures Nest(s, depth, busy) == Some(s)
    decreases depth
  {
    if depth > 0 {
      var inner := Scope(s.locks + 1, s.log);
      assert Enter(s, busy) == Some(inner);
      NestInsideHeld(inner, depth - 1, busy);
    }
  }

  /**
   * However deeply scopes are nested, one transaction is opened and one is
   * committed, at the outermost entry and exit, and only when the counter
   * was zero on entry; when that BEGIN raises, nothing changes.
   */
  lemma NestCommitsOnce(s: Scope, depth: nat, busy: bool)
    requires depth > 0
    ensures s.locks > 0 ==> Nest(s, depth, busy) == Some(s)
    ensures s.locks == 0 && busy ==> Nest(s, depth, busy).None?
    ensures s.locks == 0 && !busy ==> Nest(s, depth, busy) == Some(Scope(0, s.log + [Begin, Commit]))
  {
    if s.locks > 0 {
      NestInsideHeld(s, depth, busy);
    } else if !busy {
      var inner := Scope(1, s.log + [Begin]);
      NestInsideHeld(inner, depth - 1, busy);
      assert s.log + [Begin] + [Commit] == s.log + [Begin, Commit];
    }
  }
}
