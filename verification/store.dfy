/**
 * The message store: one record per saved chat message, looked up by
 * (message id, chat id), appended to by `save_message` and pruned by age by
 * `cleanup_old_messages`. The table is a sequence in insertion order; the
 * surrogate primary key `id` is not kept.
 */
module Store {
  import opened Wrappers

  /** A row of the `messages` table. Times are integers in microseconds (the resolution of a datetime). */
  datatype Record = Record(
    messageId: int,
    chatId: int,
    userId: int,
    originalText: string,
    translatedText: string,
    translationType: string,
    createdAt: int)

  /** The sender of an incoming message. */
  datatype User = User(id: int, isBot: bool)

  /** An incoming chat message as `save_message` sees it; `fromUser` is absent for channel posts. */
  datatype Incoming = Incoming(messageId: int, chatId: int, text: string, fromUser: Option<User>)

  /** How long a record is kept: 24 hours, in microseconds. */
  const RetentionHorizon: int := 24 * 60 * 60 * 1000000

  predicate HasKey(r: Record, messageId: int, chatId: int)
  {
    r.messageId == messageId && r.chatId == chatId
  }

  /** `get_message_by_id`: the first record, in insertion order, with this message id in this chat. */
  function GetMessageById(records: seq<Record>, messageId: int, chatId: int): (found: Option<Record>)
    ensures found.None? <==> forall i :: 0 <= i < |records| ==> !HasKey(records[i], messageId, chatId)
    ensures found.Some? ==>
              exists i :: 0 <= i < |records| && records[i] == found.value &&
                          HasKey(records[i], messageId, chatId) &&
                          forall j :: 0 <= j < i ==> !HasKey(records[j], messageId, chatId)
  {
    if records == [] then None
    else if HasKey(records[0], messageId, chatId) then Some(records[0])
    else GetMessageById(records[1..], messageId, chatId)
  }

  /** The records a cleanup keeps: those created at or after the cutoff, in their original order. */
  function Retained(records: seq<Record>, cutoff: int): (kept: seq<Record>)
    ensures |kept| <= |records|
    ensures forall r :: r in kept <==> r in records && r.createdAt >= cutoff
  {
    if records == [] then []
    else if records[0].createdAt >= cutoff then [records[0]] + Retained(records[1..], cutoff)
    else Retained(records[1..], cutoff)
  }

  /** The record `save_message` builds: ids and text copied, translation fields empty, stamped now. */
  function NewRecord(m: Incoming, sender: User, now: int): Record
  {
    Record(m.messageId, m.chatId, sender.id, m.text, "", "", now)
  }

  /** True when `save_message` stores nothing: empty text, no sender, or a bot sender. */
  predicate Rejected(m: Incoming)
  {
    m.text == [] || m.fromUser.None? || m.fromUser.value.isBot
  }

  /** The persisted `messages` table. */
  class MessageStore {
    var records: seq<Record>

    /** Every stored record carries non-empty text and not-yet-filled translation fields. */
    ghost predicate Valid()
      reads this
    {
      forall r :: r in records ==> r.originalText != [] && r.translatedText == [] && r.translationType == []
    }

    constructor ()
      ensures records == [] && Valid()
    {
      records := [];
    }

    /**
     * `save_message`: a message with empty text, without a sender or from a bot
     * is skipped (None); any other is appended as a new record, with no check
     * for an existing record under the same key.
     */
    method SaveMessage(m: Incoming, now: int) returns (saved: Option<Record>)
      requires Valid()
      modifies this
      ensures Valid()
      ensures saved.None? <==> Rejected(m)
      ensures saved.None? ==> records == old(records)
      ensures saved.Some? ==>
                saved.value == NewRecord(m, m.fromUser.value, now) &&
                records == old(records) + [saved.value]
    {
      if m.text == [] {
        return None;
      }
      if m.fromUser.None? || m.fromUser.value.isBot {
        return None;
      }
      var r := NewRecord(m, m.fromUser.value, now);
      records := records + [r];
      saved := Some(r);
    }

    /**
     * `cleanup_old_messages`: delete every record created before `now` minus
     * 24 hours and report how many went. When the store cannot be reached
     * nothing changes and nothing is deleted.
     */
    method CleanupOldMessages(now: int, storeAvailable: bool) returns (deleted: nat)
      requires Valid()
      modifies this
      ensures Valid()
      ensures storeAvailable ==> records == Retained(old(records), now - RetentionHorizon)
      ensures !storeAvailable ==> records == old(records)
      ensures deleted == |old(records)| - |records|
    {
      if !storeAvailable {
        return 0;
      }
      var kept := Retained(records, now - RetentionHorizon);
      deleted := |records| - |kept|;
      records := kept;
    }
  }

  // ---------------------------------------------------------------------------
  // The cleanup as written, when the store cannot be reached
  // ---------------------------------------------------------------------------

  /** How a Python statement or call ends: it returns, or an exception (named by its class) escapes it. */
  datatype Exit = Returns | Raises(exception: string)

  /** Which exceptions an `except` clause catches: `except Exception` catches all, `except (A, B)` only A and B. */
  datatype Handler = CatchAll | CatchOnly(names: set<string>)

  predicate Catches(h: Handler, exception: string)
  {
    match h
    case CatchAll => true
    case CatchOnly(names) => exception in names
  }

  /**
   * `try: <body> except <h>: <handler> finally: <fin>`: an exception of the
   * body that `h` catches is replaced by how the handler ends, one it does not
   * catch goes on; then a `finally` clause that raises replaces whatever was
   * under way.
   */
  function TryStatement(body: Exit, h: Handler, handler: Exit, fin: Exit): Exit
  {
    var afterExcept := if body.Raises? && Catches(h, body.exception) then handler else body;
    if fin.Raises? then fin else afterExcept
  }

  /**
   * `next(get_db())`: the connection probe fails on an unreachable store, and
   * `get_db` logs and re-raises the database error.
   */
  function OpenSession(storeAvailable: bool): (e: Exit)
    ensures e.Returns? <==> storeAvailable
    ensures e.Raises? ==> e.exception == "SQLAlchemyError"
  {
    if storeAvailable then Returns else Raises("SQLAlchemyError")
  }

  /** Whether a Python local has been assigned. */
  datatype Binding = Unbound | Bound

  /** The local `db` after `db = next(get_db())`: assigned only when the call returned. */
  function SessionBinding(open: Exit): (db: Binding)
    ensures db.Bound? <==> open.Returns?
  {
    if open.Returns? then Bound else Unbound
  }

  /** `db.close()`: reading a local that was never assigned raises. */
  function CloseSession(db: Binding): (e: Exit)
    ensures e.Returns? <==> db.Bound?
    ensures e.Raises? ==> e.exception == "UnboundLocalError"
  {
    match db
    case Bound => Returns
    case Unbound => Raises("UnboundLocalError")
  }

  /**
   * The exit of `cleanup_old_messages` as written: the session is opened in
   * the try body, every exception is caught and logged, and the `finally`
   * clause closes the session whether or not it was opened. (The query and
   * the commit after a successful open are taken not to fail.)
   */
  function CleanupExitAsWritten(storeAvailable: bool): (e: Exit)
    ensures e.Raises? <==> !storeAvailable
  {
    var open := OpenSession(storeAvailable);
    TryStatement(open, CatchAll, Returns, CloseSession(SessionBinding(open)))
  }

  /** The same cleanup with its `finally` clause closing the session only when it was opened. */
  function CleanupExit(storeAvailable: bool): Exit
  {
    var open := OpenSession(storeAvailable);
    var db := SessionBinding(open);
    TryStatement(open, CatchAll, Returns, if db.Bound? then CloseSession(db) else Returns)
  }

  /**
   * As written, on an unreachable store the database error is caught, but the
   * `finally` clause then raises UnboundLocalError, which escapes the cleanup.
   */
  lemma CleanupRaisesWhenStoreDown()
    ensures OpenSession(false).Raises? && Catches(CatchAll, OpenSession(false).exception)
    ensures SessionBinding(OpenSession(false)) == Unbound
    ensures CleanupExitAsWritten(false) == Raises("UnboundLocalError")
  {
  }

  /** As written, the cleanup returns normally whenever the store can be reached. */
  lemma CleanupReturnsWhenStoreUp()
    ensures CleanupExitAsWritten(true) == Returns
  {
  }

  /** With the `finally` clause guarded, the cleanup always returns: a store failure is only logged. */
  lemma CleanupExitAlwaysReturns(storeAvailable: bool)
    ensures CleanupExit(storeAvailable) == Returns
  {
  }

  // ---------------------------------------------------------------------------
  // Properties of lookup and retention
  // ---------------------------------------------------------------------------

  /**
   * Lookup after an append: an earlier record with the key still wins, so a
   * duplicate save never changes what lookup returns; otherwise the new record
   * is found exactly when it has the key.
   */
  lemma {:induction false} LookupAfterAppend(records: seq<Record>, r: Record, messageId: int, chatId: int)
    ensures GetMessageById(records + [r], messageId, chatId) ==
      if GetMessageById(records, messageId, chatId).Some? then GetMessageById(records, messageId, chatId)
      else if HasKey(r, messageId, chatId) then Some(r)
      else None
  {
    if records != [] {
      assert (records + [r])[1..] == records[1..] + [r];
      LookupAfterAppend(records[1..], r, messageId, chatId);
    }
  }

  /** A record preceded by no record with its key is the one lookup returns. */
  lemma {:induction false} LookupFindsFirst(before: seq<Record>, r: Record, after: seq<Record>)
    requires forall i :: 0 <= i < |before| ==> !HasKey(before[i], r.messageId, r.chatId)
    ensures GetMessageById(before + [r] + after, r.messageId, r.chatId) == Some(r)
  {
    if before != [] {
      assert (before + [r] + after)[1..] == before[1..] + [r] + after;
      LookupFindsFirst(before[1..], r, after);
    }
  }

  /** Retention acts record by record: it keeps the relative order of what it keeps. */
  lemma {:induction false} RetainedConcat(a: seq<Record>, b: seq<Record>, cutoff: int)
    ensures Retained(a + b, cutoff) == Retained(a, cutoff) + Retained(b, cutoff)
  {
    if a == [] {
      assert a + b == b;
    } else {
      assert (a + b)[0] == a[0];
      assert (a + b)[1..] == a[1..] + b;
      RetainedConcat(a[1..], b, cutoff);
    }
  }

  /** Retention removes exactly the records older than the cutoff, counting duplicates. */
  lemma {:induction false} RetainedCounts(records: seq<Record>, cutoff: int, r: Record)
    ensures multiset(Retained(records, cutoff))[r] ==
      if r.createdAt >= cutoff then multiset(records)[r] else 0
  {
    if records != [] {
      assert records == [records[0]] + records[1..];
      RetainedCounts(records[1..], cutoff, r);
    }
  }

  /** A table with nothing older than the cutoff is left as it is. */
  lemma {:induction false} RetainedAllRecent(records: seq<Record>, cutoff: int)
    requires forall i :: 0 <= i < |records| ==> records[i].createdAt >= cutoff
    ensures Retained(records, cutoff) == records
  {
    if records != [] {
      RetainedAllRecent(records[1..], cutoff);
    }
  }

  /** Cleanup is idempotent: a second run with the same cutoff deletes nothing. */
  lemma RetainedIdempotent(records: seq<Record>, cutoff: int)
    ensures Retained(Retained(records, cutoff), cutoff) == Retained(records, cutoff)
  {
    var kept := Retained(records, cutoff);
    forall i | 0 <= i < |kept| ensures kept[i].createdAt >= cutoff {
      assert kept[i] in kept;
    }
    RetainedAllRecent(kept, cutoff);
  }
}
