/** Runs of the dead-letter service over store values.

    A step is one service call, taken atomically. The store is keyed by identifier while
    deduplication goes by natural key; the lemmas below show that the pair behaves as a
    per-natural-key automaton, and that the retry counter, the poison threshold and the
    replay budget hold in every reachable state. */
module DlqLifecycle {
  import opened Wrappers
  import opened DlqDomain
  import opened DlqRepository

  datatype Arrival = Arrival(envelope: Envelope, payload: Option<seq<byte>>, payloadHash: string,
                             headers: Option<map<string, seq<string>>>)

  function ArrivalKey(a: Arrival): NaturalKey {
    NaturalKey(a.envelope.sensorName, a.envelope.failedTrigger, a.payloadHash)
  }

  datatype Op =
    | Ingest(arrival: Arrival, freshId: string, now: Time)
    | Replay(id: string, delivered: bool, now: Time)
    | Resolve(id: string, resolver: string, now: Time)
    | Reset(id: string, now: Time)

  /** What an accepted call did to one record; refused calls and absorbed arrivals leave no entry. */
  datatype Effect = Created | Arrived | Sent | Closed | Restarted
  datatype LogEntry = LogEntry(id: string, effect: Effect)

  datatype State = State(db: Db, log: seq<LogEntry>)

  // ---------------------------------------------------------------- one call on the store

  ghost predicate HasKey(db: Db, k: NaturalKey) {
    exists id :: id in db && KeyOf(db[id]) == k
  }

  function Creation(maxRetries: int, a: Arrival, freshId: string, now: Time): Record {
    NewRecord(freshId, a.envelope, a.payload, a.payloadHash, a.headers, maxRetries, now)
  }

  /** A duplicate arrival re-ingests some record with its key; a new key creates a record. */
  ghost predicate IngestEffect(db: Db, maxRetries: int, a: Arrival, freshId: string, now: Time, db': Db,
          result: Record) {
    if HasKey(db, ArrivalKey(a)) then
      exists id :: id in db && KeyOf(db[id]) == ArrivalKey(a)
                   && result == Settled(db[id], ReIngestOf(db[id], now)) && db' == db[id := result]
    else
      result == Creation(maxRetries, a, freshId, now) && db' == db[freshId := result]
  }

  function ReplayResult(db: Db, id: string, delivered: bool, now: Time): Result<Record, DlqError> {
    if id !in db then Err(NotFound)
    else
      var r := ReplayOf(db[id], now);
      if r.Ok? && !delivered then Err(TransportFailed) else r
  }

  function ResolveResult(db: Db, id: string, resolver: string, now: Time): Result<Record, DlqError> {
    if id !in db then Err(NotFound) else ResolveOf(db[id], resolver, now)
  }

  function ResetResult(db: Db, id: string, now: Time): Result<Record, DlqError> {
    if id !in db then Err(NotFound) else ResetOf(db[id], now)
  }

  function Written(db: Db, id: string, r: Result<Record, DlqError>): Db {
    if r.Ok? then db[id := r.value] else db
  }

  function Logged(log: seq<LogEntry>, id: string, effect: Effect, r: Result<Record, DlqError>): seq<LogEntry> {
    if r.Ok? then log + [LogEntry(id, effect)] else log
  }

  ghost predicate Step(maxRetries: int, s: State, op: Op, s': State) {
    match op
    case Ingest(a, freshId, now) =>
      if HasKey(s.db, ArrivalKey(a)) then
        exists id :: id in s.db && KeyOf(s.db[id]) == ArrivalKey(a)
                     && s' == State(Written(s.db, id, ReIngestOf(s.db[id], now)),
                         Logged(s.log, id, Arrived, ReIngestOf(s.db[id], now)))
      else
        && freshId !in s.db  // identifiers are random UUIDs, assumed fresh
        && s' == State(s.db[freshId := Creation(maxRetries, a, freshId, now)], s.log + [LogEntry(freshId, Created)])
    case Replay(id, delivered, now) =>
      var r := ReplayResult(s.db, id, delivered, now);
      s' == State(Written(s.db, id, r), Logged(s.log, id, Sent, r))
    case Resolve(id, resolver, now) =>
      var r := ResolveResult(s.db, id, resolver, now);
      s' == State(Written(s.db, id, r), Logged(s.log, id, Closed, r))
    case Reset(id, now) =>
      var r := ResetResult(s.db, id, now);
      s' == State(Written(s.db, id, r), Logged(s.log, id, Restarted, r))
  }

  ghost predicate Run(maxRetries: int, ss: seq<State>, ops: seq<Op>) {
    && |ss| == |ops| + 1
    && ss[0] == State(map[], [])
    && forall i :: 0 <= i < |ops| ==> Step(maxRetries, ss[i], ops[i], ss[i + 1])
  }

  /** The service's ingest call is a step of the run. */
  lemma IngestIsStep(maxRetries: int, s: State, a: Arrival, freshId: string, now: Time, db': Db, result: Record)
    requires IngestEffect(s.db, maxRetries, a, freshId, now, db', result) && freshId !in s.db
    ensures exists s': State :: s'.db == db' && Step(maxRetries, s, Ingest(a, freshId, now), s')
  {
    if HasKey(s.db, ArrivalKey(a)) {
      var id :| id in s.db && KeyOf(s.db[id]) == ArrivalKey(a)
                && result == Settled(s.db[id], ReIngestOf(s.db[id], now)) && db' == s.db[id := result];
      var r := ReIngestOf(s.db[id], now);
      var s' := State(Written(s.db, id, r), Logged(s.log, id, Arrived, r));
      assert s'.db == db';
      assert Step(maxRetries, s, Ingest(a, freshId, now), s');
    } else {
      assert Step(maxRetries, s, Ingest(a, freshId, now), State(db', s.log + [LogEntry(freshId, Created)]));
    }
  }

  // ---------------------------------------------------------------- the invariant

  /** Entries of kind `effect` for `id` since it was created or last reset. */
  function SinceRestart(log: seq<LogEntry>, id: string, effect: Effect): nat {
    if log == [] then 0
    else
      var last := log[|log| - 1];
      var before := SinceRestart(log[..|log| - 1], id, effect);
      if last.id != id then before
      else if last.effect == Created || last.effect == Restarted then 0
      else if last.effect == effect then before + 1
      else before
  }

  ghost predicate RecordInv(e: Record) {
    && e.maxRetries >= 1
    && e.retryCount >= 0
    && (e.status == Poisoned <==> e.retryCount >= e.maxRetries)
    && (e.resolvedAt.Some? <==> e.status == Resolved)
  }

  /** How many replays the record's current state still accounts for. */
  function ReplayCeiling(e: Record): int {
    match e.status
    case Pending => e.retryCount
    case Replayed => e.retryCount + 1
    case Resolved => e.retryCount + 1
    case Poisoned => e.maxRetries
  }

  ghost predicate UniqueKeys(db: Db) {
    forall id, id' :: id in db && id' in db && KeyOf(db[id]) == KeyOf(db[id']) ==> id == id'
  }

  ghost predicate Counted(s: State, id: string)
    requires id in s.db
  {
    && s.db[id].id == id
    && RecordInv(s.db[id])
    && s.db[id].retryCount == SinceRestart(s.log, id, Arrived)
    && SinceRestart(s.log, id, Sent) <= ReplayCeiling(s.db[id])
  }

  ghost predicate Inv(s: State) {
    && UniqueKeys(s.db)
    && (forall id :: id in s.db ==> Counted(s, id))
  }

  lemma LogExtended(log: seq<LogEntry>, entry: LogEntry, id: string, effect: Effect)
    ensures SinceRestart(log + [entry], id, effect) ==
            if entry.id != id then SinceRestart(log, id, effect)
            else if entry.effect == Created || entry.effect == Restarted then 0
            else SinceRestart(log, id, effect) + if entry.effect == effect then 1 else 0
  {
    assert (log + [entry])[..|log|] == log;
  }

  lemma UniqueAfterUpdate(db: Db, id: string, e: Record)
    requires UniqueKeys(db) && id in db && KeyOf(e) == KeyOf(db[id])
    ensures UniqueKeys(db[id := e])
  {
    var db' := db[id := e];
    forall x, y | x in db' && y in db' && KeyOf(db'[x]) == KeyOf(db'[y])
      ensures x == y
    {
      assert KeyOf(db'[x]) == KeyOf(db[x]) && KeyOf(db'[y]) == KeyOf(db[y]);
    }
  }

  /** A log entry about one record says nothing about another. */
  lemma OtherStaysCounted(s: State, entry: LogEntry, db': Db, x: string)
    requires x in s.db && x in db' && db'[x] == s.db[x] && x != entry.id && Counted(s, x)
    ensures Counted(State(db', s.log + [entry]), x)
  {
    LogExtended(s.log, entry, x, Arrived);
    LogExtended(s.log, entry, x, Sent);
  }

  /** Replacing one record by a successor with the same key, and logging it, keeps the invariant. */
  lemma UpdateKeepsInv(s: State, id: string, e: Record, effect: Effect, s': State)
    requires Inv(s) && id in s.db && KeyOf(e) == KeyOf(s.db[id])
    requires s' == State(s.db[id := e], s.log + [LogEntry(id, effect)])
    requires Counted(s', id)
    ensures Inv(s')
  {
    UniqueAfterUpdate(s.db, id, e);
    assert UniqueKeys(s'.db);
  }

  lemma CreateKeepsInv(s: State, maxRetries: int, a: Arrival, freshId: string, now: Time, s': State)
    requires Inv(s) && !HasKey(s.db, ArrivalKey(a)) && Step(maxRetries, s, Ingest(a, freshId, now), s')
    ensures Inv(s')
  {
    LogExtended(s.log, LogEntry(freshId, Created), freshId, Arrived);
    LogExtended(s.log, LogEntry(freshId, Created), freshId, Sent);
    forall x | x in s.db
      ensures Counted(s', x)
    {
      OtherStaysCounted(s, LogEntry(freshId, Created), s'.db, x);
    }
  }

  lemma StepKeepsInv(maxRetries: int, s: State, op: Op, s': State)
    requires Inv(s) && Step(maxRetries, s, op, s')
    ensures Inv(s')
  {
    hide Step, SinceRestart, HasKey, UniqueKeys;
    if op.Ingest? && !HasKey(s.db, ArrivalKey(op.arrival)) {
      CreateKeepsInv(s, maxRetries, op.arrival, op.freshId, op.now, s');
    } else if s' != s {
      var id, r, effect := Target(maxRetries, s, op, s');
      LogExtended(s.log, LogEntry(id, effect), id, Arrived);
      LogExtended(s.log, LogEntry(id, effect), id, Sent);
      UpdateKeepsInv(s, id, r.value, effect, s');
    }
  }

  /** The one record a call other than a creation touches, and the transition it takes. */
  lemma Target(maxRetries: int, s: State, op: Op, s': State)
    returns (id: string, r: Result<Record, DlqError>, effect: Effect)
    requires Step(maxRetries, s, op, s') && s' != s
    requires op.Ingest? ==> HasKey(s.db, ArrivalKey(op.arrival))
    ensures id in s.db && r.Ok? && s' == State(s.db[id := r.value], s.log + [LogEntry(id, effect)])
    ensures match op
            case Ingest(a, _, now) => KeyOf(s.db[id]) == ArrivalKey(a) && effect == Arrived
                && r == ReIngestOf(s.db[id], now)
            case Replay(x, delivered, now) => id == x && delivered && effect == Sent && r == ReplayOf(s.db[id], now)
            case Resolve(x, resolver, now) => id == x && effect == Closed && r == ResolveOf(s.db[id], resolver, now)
            case Reset(x, now) => id == x && effect == Restarted && r == ResetOf(s.db[id], now)
  {
    match op
    case Ingest(a, _, now) =>
      id :| id in s.db && KeyOf(s.db[id]) == ArrivalKey(a)
            && s' == State(Written(s.db, id, ReIngestOf(s.db[id], now)),
                Logged(s.log, id, Arrived, ReIngestOf(s.db[id], now)));
      r, effect := ReIngestOf(s.db[id], now), Arrived;
    case Replay(x, delivered, now) =>
      id, r, effect := x, ReplayResult(s.db, x, delivered, now), Sent;
    case Resolve(x, resolver, now) =>
      id, r, effect := x, ResolveResult(s.db, x, resolver, now), Closed;
    case Reset(x, now) =>
      id, r, effect := x, ResetResult(s.db, x, now), Restarted;
  }

  lemma {:induction false} RunKeepsInv(maxRetries: int, ss: seq<State>, ops: seq<Op>, i: nat)
    requires Run(maxRetries, ss, ops) && i < |ss|
    ensures Inv(ss[i])
  {
    if i > 0 {
      RunKeepsInv(maxRetries, ss, ops, i - 1);
      StepKeepsInv(maxRetries, ss[i - 1], ops[i - 1], ss[i]);
    }
  }

  // ---------------------------------------------------------------- what every run promises

  /** In every reachable state: the poison threshold, the meaning of the retry counter, the
      resolution timestamp, and at most `maxRetries` replays between two restarts. */
  lemma ReachableRecords(maxRetries: int, ss: seq<State>, ops: seq<Op>, i: nat, id: string)
    requires Run(maxRetries, ss, ops) && i < |ss| && id in ss[i].db
    ensures var e := ss[i].db[id];
            && e.maxRetries >= 1
            && (e.status == Poisoned <==> e.retryCount >= e.maxRetries)
            && (e.resolvedAt.Some? <==> e.status == Resolved)
            && e.retryCount == SinceRestart(ss[i].log, id, Arrived)
            && SinceRestart(ss[i].log, id, Sent) <= e.maxRetries
  {
    RunKeepsInv(maxRetries, ss, ops, i);
    assert Counted(ss[i], id);
  }

  /** Whichever record a visit of the map in arbitrary order finds first, it is the same one. */
  lemma LookupIsDeterministic(maxRetries: int, ss: seq<State>, ops: seq<Op>, i: nat, x: string, y: string)
    requires Run(maxRetries, ss, ops) && i < |ss|
    requires x in ss[i].db && y in ss[i].db && KeyOf(ss[i].db[x]) == KeyOf(ss[i].db[y])
    ensures x == y
  {
    RunKeepsInv(maxRetries, ss, ops, i);
  }

  lemma ResolvedStays(maxRetries: int, s: State, op: Op, s': State, id: string)
    requires Step(maxRetries, s, op, s') && id in s.db && s.db[id].status == Resolved
    ensures id in s'.db && s'.db[id] == s.db[id]
  {
    if s' != s && !(op.Ingest? && !HasKey(s.db, ArrivalKey(op.arrival))) {
      var x, r, effect := Target(maxRetries, s, op, s');
    }
  }

  /** A resolved record is never changed again, by any call. */
  lemma {:induction false} ResolvedForever(maxRetries: int, ss: seq<State>, ops: seq<Op>, i: nat, j: nat, id: string)
    requires Run(maxRetries, ss, ops) && i <= j < |ss|
    requires id in ss[i].db && ss[i].db[id].status == Resolved
    ensures id in ss[j].db && ss[j].db[id] == ss[i].db[id]
    decreases j
  {
    if i < j {
      ResolvedForever(maxRetries, ss, ops, i, j - 1, id);
      ResolvedStays(maxRetries, ss[j - 1], ops[j - 1], ss[j], id);
    }
  }

  /** No record ever disappears, and its natural key and payload never change. */
  lemma {:induction false} RecordsPersist(maxRetries: int, ss: seq<State>, ops: seq<Op>, i: nat, j: nat, id: string)
    requires Run(maxRetries, ss, ops) && i <= j < |ss| && id in ss[i].db
    ensures id in ss[j].db && KeyOf(ss[j].db[id]) == KeyOf(ss[i].db[id])
    ensures ss[j].db[id].payload == ss[i].db[id].payload && ss[j].db[id].headers == ss[i].db[id].headers
    ensures ss[j].db[id].envelope == ss[i].db[id].envelope && ss[j].db[id].createdAt == ss[i].db[id].createdAt
    decreases j
  {
    if i < j {
      RecordsPersist(maxRetries, ss, ops, i, j - 1, id);
      var s, op, s' := ss[j - 1], ops[j - 1], ss[j];
      assert Step(maxRetries, s, op, s');
      if s' != s && !(op.Ingest? && !HasKey(s.db, ArrivalKey(op.arrival))) {
        var x, r, effect := Target(maxRetries, s, op, s');
      }
    }
  }

  lemma FirstArrivalCreates(a: Arrival, id: string)
    ensures Step(1, State(map[], []), Ingest(a, id, 0),
            State(map[id := Creation(1, a, id, 0)], [LogEntry(id, Created)]))
  {
    var none: seq<LogEntry> := [];
    assert none + [LogEntry(id, Created)] == [LogEntry(id, Created)];
  }

  lemma SecondArrivalPoisons(a: Arrival, id: string, other: string)
    ensures var e := Creation(1, a, id, 0);
            && ReIngestOf(e, 1).Ok? && ReIngestOf(e, 1).value.status == Poisoned
            && Step(1, State(map[id := e], [LogEntry(id, Created)]), Ingest(a, other, 1),
                    State(map[id := ReIngestOf(e, 1).value], [LogEntry(id, Created)] + [LogEntry(id, Arrived)]))
  {
    var e := Creation(1, a, id, 0);
    var s := State(map[id := e], [LogEntry(id, Created)]);
    assert id in s.db && KeyOf(s.db[id]) == ArrivalKey(a);
    assert s.db[id := ReIngestOf(e, 1).value] == map[id := ReIngestOf(e, 1).value];
  }

  /** The documentation ties poisoning to failed replays; the code counts arrivals, so plain
      redelivery of the original failure poisons a record nobody ever replayed. */
  lemma PoisonedWithoutAnyReplay(a: Arrival)
    ensures exists ss: seq<State>, ops: seq<Op> ::
              Run(1, ss, ops) && |ops| == 2 && "dlq-1" in ss[2].db && ss[2].db["dlq-1"].status == Poisoned
              && SinceRestart(ss[2].log, "dlq-1", Sent) == 0
  {
    hide Step, ReIngestOf, SinceRestart, Creation;
    var e := Creation(1, a, "dlq-1", 0);
    SecondArrivalPoisons(a, "dlq-1", "dlq-2");
    var s0 := State(map[], []);
    var s1 := State(map["dlq-1" := e], [LogEntry("dlq-1", Created)]);
    var s2 := State(map["dlq-1" := ReIngestOf(e, 1).value], s1.log + [LogEntry("dlq-1", Arrived)]);
    FirstArrivalCreates(a, "dlq-1");
    NotSentYet("dlq-1");
    LogExtended(s1.log, LogEntry("dlq-1", Arrived), "dlq-1", Sent);
    var ss, ops := [s0, s1, s2], [Ingest(a, "dlq-1", 0), Ingest(a, "dlq-2", 1)];
    assert Run(1, ss, ops);
  }

  lemma NotSentYet(id: string)
    ensures SinceRestart([LogEntry(id, Created)], id, Sent) == 0
  {
  }

  // ---------------------------------------------------------------- the automaton by natural key

  /** The record a natural key stands for; unique in every reachable store. */
  ghost function Holder(db: Db, k: NaturalKey): Option<Record> {
    if HasKey(db, k) then
      var id :| id in db && KeyOf(db[id]) == k;
      Some(db[id])
    else None
  }

  datatype KeyOp =
    | Arrive(arrival: Arrival, freshId: string, now: Time)
    | ReplayKey(key: NaturalKey, delivered: bool, now: Time)
    | ResolveKey(key: NaturalKey, resolver: string, now: Time)
    | ResetKey(key: NaturalKey, now: Time)
    | Unknown

  function KeyOfOp(op: KeyOp): Option<NaturalKey> {
    match op
    case Arrive(a, _, _) => Some(ArrivalKey(a))
    case ReplayKey(k, _, _) => Some(k)
    case ResolveKey(k, _, _) => Some(k)
    case ResetKey(k, _) => Some(k)
    case Unknown => None
  }

  /** What one call makes of the record at its own key; it cannot see any other. */
  function Move(maxRetries: int, current: Option<Record>, op: KeyOp): Option<Record> {
    match op
    case Arrive(a, freshId, now) =>
      if current.None? then Some(Creation(maxRetries, a, freshId, now))
      else Some(Settled(current.value, ReIngestOf(current.value, now)))
    case ReplayKey(_, delivered, now) =>
      if current.None? || !delivered then current else Some(Settled(current.value, ReplayOf(current.value, now)))
    case ResolveKey(_, resolver, now) =>
      if current.None? then current else Some(Settled(current.value, ResolveOf(current.value, resolver, now)))
    case ResetKey(_, now) =>
      if current.None? then current else Some(Settled(current.value, ResetOf(current.value, now)))
    case Unknown => current
  }

  /** An identifier is only a handle for a natural key. */
  function Translate(db: Db, op: Op): KeyOp {
    match op
    case Ingest(a, freshId, now) => Arrive(a, freshId, now)
    case Replay(id, delivered, now) => if id in db then ReplayKey(KeyOf(db[id]), delivered, now) else Unknown
    case Resolve(id, resolver, now) => if id in db then ResolveKey(KeyOf(db[id]), resolver, now) else Unknown
    case Reset(id, now) => if id in db then ResetKey(KeyOf(db[id]), now) else Unknown
  }

  lemma HolderIs(db: Db, id: string)
    requires UniqueKeys(db) && id in db
    ensures Holder(db, KeyOf(db[id])) == Some(db[id])
  {
    assert HasKey(db, KeyOf(db[id]));
  }

  /** Writing a record under an unused key, or over the record with the same key, moves that key only. */
  lemma HolderAfterWrite(db: Db, id: string, e: Record, k: NaturalKey)
    requires UniqueKeys(db) && UniqueKeys(db[id := e])
    requires id in db ==> KeyOf(e) == KeyOf(db[id])
    ensures Holder(db[id := e], k) == if k == KeyOf(e) then Some(e) else Holder(db, k)
  {
    var db' := db[id := e];
    if k == KeyOf(e) {
      HolderIs(db', id);
    } else if HasKey(db, k) {
      var x :| x in db && KeyOf(db[x]) == k;
      HolderIs(db, x);
      HolderIs(db', x);
    }
  }

  /** `op` moves the record at its key and no other. */
  ghost predicate OneMove(maxRetries: int, before: Db, op: KeyOp, after: Db) {
    forall k :: Holder(after, k) == if KeyOfOp(op) == Some(k) then Move(maxRetries, Holder(before, k), op)
        else Holder(before, k)
  }

  /** Every call on a reachable store is exactly one automaton move at one key, and every other
      key keeps its record. */
  lemma StoreRefinesAutomaton(maxRetries: int, s: State, op: Op, s': State)
    requires Inv(s) && Step(maxRetries, s, op, s')
    ensures Inv(s') && OneMove(maxRetries, s.db, Translate(s.db, op), s'.db)
  {
    hide Step, Inv, Translate, OneMove, HasKey;
    StepKeepsInv(maxRetries, s, op, s');
    if op.Ingest? && !HasKey(s.db, ArrivalKey(op.arrival)) {
      CreationIsMove(maxRetries, s, op, s');
    } else if s' != s {
      UpdateIsMove(maxRetries, s, op, s');
    } else {
      RefusedIsNoMove(maxRetries, s, op);
    }
  }

  lemma CreationIsMove(maxRetries: int, s: State, op: Op, s': State)
    requires Inv(s) && Inv(s') && Step(maxRetries, s, op, s') && op.Ingest? && !HasKey(s.db, ArrivalKey(op.arrival))
    ensures OneMove(maxRetries, s.db, Translate(s.db, op), s'.db)
  {
    forall k { HolderAfterWrite(s.db, op.freshId, Creation(maxRetries, op.arrival, op.freshId, op.now), k); }
  }

  lemma UpdateIsMove(maxRetries: int, s: State, op: Op, s': State)
    requires Inv(s) && Inv(s') && Step(maxRetries, s, op, s') && s' != s
    requires op.Ingest? ==> HasKey(s.db, ArrivalKey(op.arrival))
    ensures OneMove(maxRetries, s.db, Translate(s.db, op), s'.db)
  {
    hide Step, Counted, Holder, HasKey;
    var id, r, effect := Target(maxRetries, s, op, s');
    HolderIs(s.db, id);
    forall k { HolderAfterWrite(s.db, id, r.value, k); }
  }

  /** A call that leaves the store alone is a move the automaton refuses too. */
  lemma RefusedIsNoMove(maxRetries: int, s: State, op: Op)
    requires Inv(s) && Step(maxRetries, s, op, s)
    requires op.Ingest? ==> HasKey(s.db, ArrivalKey(op.arrival))
    ensures OneMove(maxRetries, s.db, Translate(s.db, op), s.db)
  {
    if op.Ingest? {
      var id := AbsorbedBy(maxRetries, s, op);
      HolderIs(s.db, id);
    } else if op.id in s.db {
      HolderIs(s.db, op.id);
      RefusedById(maxRetries, s, op);
    }
  }

  lemma AbsorbedBy(maxRetries: int, s: State, op: Op) returns (id: string)
    requires op.Ingest? && HasKey(s.db, ArrivalKey(op.arrival)) && Step(maxRetries, s, op, s)
    ensures id in s.db && KeyOf(s.db[id]) == ArrivalKey(op.arrival) && ReIngestOf(s.db[id], op.now).Err?
  {
    id :| id in s.db && KeyOf(s.db[id]) == ArrivalKey(op.arrival)
          && s == State(Written(s.db, id, ReIngestOf(s.db[id], op.now)),
              Logged(s.log, id, Arrived, ReIngestOf(s.db[id], op.now)));
  }

  lemma RefusedById(maxRetries: int, s: State, op: Op)
    requires !op.Ingest? && op.id in s.db && Step(maxRetries, s, op, s)
    ensures match op
            case Replay(id, delivered, now) => !delivered || ReplayOf(s.db[id], now).Err?
            case Resolve(id, resolver, now) => ResolveOf(s.db[id], resolver, now).Err?
            case Reset(id, now) => ResetOf(s.db[id], now).Err?
  {
    assert forall effect :: |s.log + [LogEntry(op.id, effect)]| > |s.log|;
  }
}
