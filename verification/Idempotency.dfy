/**
 * The idempotency-key protocol: one row for each actor, method, operation and key, acquired
 * by an insert, completed once, and replayed from copies.
 */
module Idempotency {
  import opened Wrappers
  import opened Calendar

  type Byte = b: int | 0 <= b < 256

  /** The columns of the unique index; `verb` is the HTTP method. */
  datatype Key = Key(actorId: int, verb: string, operation: string, requestKey: string)

  /** What a row says: the request it was acquired for, and the response once there is one. */
  datatype Response = Response(code: int, body: seq<Byte>)
  datatype Entry = Entry(hash: string, response: Option<Response>, expires: Instant)

  datatype KeyError = PayloadMismatch | InProgress | NotAcquired | Conflict

  datatype Answer = Acquired | Replay(entry: Entry) | Refused(error: KeyError)

  // ----- the protocol on values

  type Entries = map<Key, Entry>

  /** A Begin whose insert may fail for reasons of its own, and a Complete. */
  datatype Op =
    | Begin(key: Key, hash: string, expires: Instant, inserts: bool)
    | Complete(key: Key, code: int, body: seq<Byte>)

  function Began(t: Entries, op: Op): Answer
    requires op.Begin?
  {
    if op.key !in t then (if op.inserts then Acquired else Refused(NotAcquired))
    else if t[op.key].hash != op.hash then Refused(PayloadMismatch)
    else if t[op.key].response.None? then Refused(InProgress)
    else Replay(t[op.key])
  }

  predicate Acquires(t: Entries, op: Op) { op.Begin? && op.key !in t && op.inserts }

  predicate Completes(t: Entries, op: Op) { op.Complete? && op.key in t && t[op.key].response.None? }

  function Next(t: Entries, op: Op): Entries {
    match op
    case Begin(key, hash, expires, _) => if Acquires(t, op) then t[key := Entry(hash, None, expires)] else t
    case Complete(key, code, body) =>
      if Completes(t, op) then t[key := t[key].(response := Some(Response(code, body)))] else t
  }

  function Run(t: Entries, ops: seq<Op>): Entries
    decreases |ops|
  {
    if ops == [] then t else Run(Next(t, ops[0]), ops[1..])
  }

  /** A transaction: what it does, and whether it commits. */
  datatype Tx = Tx(ops: seq<Op>, commits: bool)

  function AfterTx(t: Entries, tx: Tx): Entries { if tx.commits then Run(t, tx.ops) else t }

  function AfterTxs(t: Entries, txs: seq<Tx>): Entries
    decreases |txs|
  {
    if txs == [] then t else AfterTxs(AfterTx(t, txs[0]), txs[1..])
  }

  // ----- the history of one key

  /** What happened to one key: the requests that acquired it and the responses that completed it. */
  datatype History = History(acquired: seq<(string, Instant)>, completed: seq<Response>) {
    function Then(later: History): History {
      History(acquired + later.acquired, completed + later.completed)
    }
  }

  const NOTHING := History([], [])

  function HistoryOf(t: Entries, op: Op, key: Key): History {
    if op.key != key then NOTHING
    else if Acquires(t, op) then History([(op.hash, op.expires)], [])
    else if Completes(t, op) then History([], [Response(op.code, op.body)])
    else NOTHING
  }

  function RunHistory(t: Entries, ops: seq<Op>, key: Key): History
    decreases |ops|
  {
    if ops == [] then NOTHING else HistoryOf(t, ops[0], key).Then(RunHistory(Next(t, ops[0]), ops[1..], key))
  }

  /** Only committed transactions make history. */
  function TxsHistory(t: Entries, txs: seq<Tx>, key: Key): History
    decreases |txs|
  {
    if txs == [] then NOTHING
    else
      (if txs[0].commits then RunHistory(t, txs[0].ops, key) else NOTHING)
      .Then(TxsHistory(AfterTx(t, txs[0]), txs[1..], key))
  }

  /** The history a row comes down to: one acquisition at most, then one completion at most. */
  function Past(t: Entries, key: Key): History {
    if key !in t then NOTHING
    else History([(t[key].hash, t[key].expires)], if t[key].response.Some? then [t[key].response.value] else [])
  }

  lemma PastOfNext(t: Entries, op: Op, key: Key)
    ensures Past(Next(t, op), key) == Past(t, key).Then(HistoryOf(t, op, key))
  {
  }

  lemma ThenIsAssociative(a: History, b: History, c: History)
    ensures a.Then(b).Then(c) == a.Then(b.Then(c))
    ensures a.Then(NOTHING) == a && NOTHING.Then(a) == a
  {
    assert a.acquired + b.acquired + c.acquired == a.acquired + (b.acquired + c.acquired);
    assert a.completed + b.completed + c.completed == a.completed + (b.completed + c.completed);
  }

  lemma {:induction false} PastOfRun(t: Entries, ops: seq<Op>, key: Key)
    ensures Past(Run(t, ops), key) == Past(t, key).Then(RunHistory(t, ops, key))
    decreases |ops|
  {
    if ops == [] {
      ThenIsAssociative(Past(t, key), NOTHING, NOTHING);
    } else {
      PastOfNext(t, ops[0], key);
      PastOfRun(Next(t, ops[0]), ops[1..], key);
      ThenIsAssociative(Past(t, key), HistoryOf(t, ops[0], key), RunHistory(Next(t, ops[0]), ops[1..], key));
    }
  }

  /** The table tells the whole committed history of each key, and the history the table. */
  lemma {:induction false} PastIsTheHistory(t: Entries, txs: seq<Tx>, key: Key)
    ensures Past(AfterTxs(t, txs), key) == Past(t, key).Then(TxsHistory(t, txs, key))
    decreases |txs|
  {
    if txs == [] {
      ThenIsAssociative(Past(t, key), NOTHING, NOTHING);
    } else {
      var first := if txs[0].commits then RunHistory(t, txs[0].ops, key) else NOTHING;
      PastOfRun(t, txs[0].ops, key);
      PastIsTheHistory(AfterTx(t, txs[0]), txs[1..], key);
      ThenIsAssociative(Past(t, key), first, TxsHistory(AfterTx(t, txs[0]), txs[1..], key));
      ThenIsAssociative(Past(t, key), NOTHING, NOTHING);
    }
  }

  /**
   * At most one committed acquisition and one committed completion of each key, over any
   * transactions, committed or rolled back; none when the key was taken, or completed, before.
   */
  lemma {:induction false} AtMostOnce(t: Entries, txs: seq<Tx>, key: Key)
    ensures var h := TxsHistory(t, txs, key);
            && |h.acquired| == (if key in AfterTxs(t, txs) then 1 else 0) - (if key in t then 1 else 0)
            && |h.completed| <= 1 && (key in t && t[key].response.Some? ==> h.completed == [])
  {
    PastIsTheHistory(t, txs, key);
  }

  /** An acquired row keeps its request and a completed one everything, expired or not. */
  lemma CompletedNeverChanges(t: Entries, txs: seq<Tx>, key: Key)
    requires key in t
    ensures key in AfterTxs(t, txs) && AfterTxs(t, txs)[key].hash == t[key].hash
    ensures t[key].response.Some? ==> AfterTxs(t, txs)[key] == t[key]
  {
    PastIsTheHistory(t, txs, key);
    var (before, after) := (Past(t, key), Past(AfterTxs(t, txs), key));
    assert before.acquired[0] == after.acquired[0];
    if t[key].response.Some? {
      assert before.completed[0] == after.completed[0];
    }
  }

  /**
   * On a table that started without the key, a replay answers exactly the request of its
   * single acquisition and the response of its single completion.
   */
  lemma ReplayIsTheCompletion(t: Entries, txs: seq<Tx>, op: Op)
    requires op.Begin? && op.key !in t
    ensures var h := TxsHistory(t, txs, op.key);
            match Began(AfterTxs(t, txs), op)
            case Acquired => h == NOTHING
            case Replay(entry) =>
              h == History([(op.hash, entry.expires)], [entry.response.value]) && entry.hash == op.hash
            case Refused(InProgress) => |h.acquired| == 1 && h.acquired[0].0 == op.hash && h.completed == []
            case Refused(PayloadMismatch) => |h.acquired| == 1 && h.acquired[0].0 != op.hash
            case Refused(_) => h == NOTHING && !op.inserts
  {
    PastIsTheHistory(t, txs, op.key);
    ThenIsAssociative(TxsHistory(t, txs, op.key), NOTHING, NOTHING);
  }

  // ----- the store: bodies are byte buffers

  datatype Row = Row(hash: string, completed: bool, code: int, body: array<Byte>, expires: Instant)

  datatype Record = Record(hash: string, code: int, body: array<Byte>, expires: Instant)

  ghost function EntryOf(row: Row): Entry
    reads row.body
  {
    Entry(row.hash, if row.completed then Some(Response(row.code, row.body[..])) else None, row.expires)
  }

  class KeyStore {
    var rows: map<Key, Row>
    ghost var Buffers: set<object>

    ghost predicate Valid()
      reads this
    {
      && this !in Buffers
      && forall k :: k in rows ==> rows[k].body in Buffers
    }

    /** The rows as values, byte buffers read off. */
    ghost function State(): Entries
      reads this, Buffers
      requires Valid()
    {
      map k | k in rows :: EntryOf(rows[k])
    }

    constructor ()
      ensures Valid() && State() == map[] && Buffers == {}
    {
      rows, Buffers := map[], {};
    }

    /** Answers None when the key is acquired; a replayed body is a buffer of the caller's own. */
    method Begin(key: Key, hash: string, expires: Instant, inserts: bool) returns (r: Result<Option<Record>, KeyError>)
      requires Valid()
      modifies this
      ensures Valid() && fresh(Buffers - old(Buffers))
      ensures State() == Next(old(State()), Op.Begin(key, hash, expires, inserts))
      ensures match Began(old(State()), Op.Begin(key, hash, expires, inserts))
              case Acquired => r == Ok(None)
              case Refused(error) => r == Err(error)
              case Replay(entry) =>
                && r.Ok? && r.value.Some? && fresh(r.value.value.body) && r.value.value.body !in Buffers
                && r.value.value.hash == hash && r.value.value.expires == entry.expires
                && entry.response == Some(Response(r.value.value.code, r.value.value.body[..]))
    {
      if key !in rows && inserts {
        var empty := new Byte[0];
        rows, Buffers := rows[key := Row(hash, false, 0, empty, expires)], Buffers + {empty};
        return Ok(None);
      }
      if key !in rows {
        return Err(NotAcquired);
      }
      var record := rows[key];
      if record.hash != hash {
        return Err(PayloadMismatch);
      }
      if !record.completed {
        return Err(InProgress);
      }
      var body := Copy(record.body);
      r := Ok(Some(Record(record.hash, record.code, body, record.expires)));
    }

    /** The body is copied in, so the caller may go on writing to its own. */
    method Complete(key: Key, code: int, body: array<Byte>) returns (r: Result<(), KeyError>)
      requires Valid()
      modifies this
      ensures Valid() && fresh(Buffers - old(Buffers))
      ensures State() == Next(old(State()), Op.Complete(key, code, old(body[..])))
      ensures r == if Completes(old(State()), Op.Complete(key, code, old(body[..]))) then Ok(()) else Err(Conflict)
    {
      if key !in rows || rows[key].completed {
        return Err(Conflict);
      }
      var stored := Copy(body);
      rows, Buffers := rows[key := rows[key].(completed := true, code := code, body := stored)], Buffers + {stored};
      r := Ok(());
    }
  }

  /** `append([]byte(nil), src...)`. */
  method Copy(src: array<Byte>) returns (dst: array<Byte>)
    ensures fresh(dst) && dst[..] == src[..]
  {
    dst := new Byte[src.Length];
    for i := 0 to src.Length
      invariant dst[..i] == src[..i]
    {
      dst[i] := src[i];
    }
  }

  /** Takes a replay and writes into its body: the store does not notice. */
  method ReplayAndWrite(store: KeyStore, op: Op, at: nat, b: Byte)
    requires store.Valid() && op.Begin? && Began(store.State(), op).Replay?
    modifies store
    ensures store.Valid() && fresh(store.Buffers - old(store.Buffers)) && store.State() == old(store.State())
  {
    var r := store.Begin(op.key, op.hash, op.expires, op.inserts);
    var body := r.value.value.body;
    if at < body.Length {
      body[at] := b;
    }
  }

  /**
   * The caller writes into the body it completed with, and into the body it got back: the
   * next replay still answers what was completed.
   */
  method ReplayAfterWrites(store: KeyStore, op: Op, code: int, body: array<Byte>, at: nat, b: Byte)
    returns (replay: Record)
    requires store.Valid() && body !in store.Buffers && at < body.Length
    requires op.Begin? && op.key in store.State() && store.State()[op.key].hash == op.hash
        && store.State()[op.key].response.None?
    modifies store, body
    ensures store.Valid() && replay.code == code && replay.body[..] == old(body[..])
    ensures store.State() == Next(old(store.State()), Complete(op.key, code, old(body[..])))
  {
    ghost var answer := Response(code, body[..]);
    var done := store.Complete(op.key, code, body);
    assert store.State()[op.key].response == Some(answer);
    body[at] := b;
    assert Began(store.State(), op).Replay?;
    ReplayAndWrite(store, op, at, b);
    var second := store.Begin(op.key, op.hash, op.expires, op.inserts);
    replay := second.value.value;
  }
}
