/** When a poisoned record was poisoned by failed replays.

    The documentation says a record is poisoned after its bound of failed replays. The code counts every
    arrival, so the rule holds exactly for records whose arrivals each answered a replay. */
module DlqPoisoning {
  import opened DlqDomain
  import opened DlqRepository
  import opened DlqLifecycle

  /** The last replay since the restart has not been answered by an arrival. */
  predicate Outstanding(log: seq<LogEntry>, id: string) {
    if log == [] then false
    else
      var last, before := log[|log| - 1], log[..|log| - 1];
      if last.id != id || last.effect == Closed then Outstanding(before, id) else last.effect == Sent
  }

  /** Arrivals since the restart that found no outstanding replay: redeliveries nobody asked for. */
  function Unprompted(log: seq<LogEntry>, id: string): nat {
    if log == [] then 0
    else
      var last, before := log[|log| - 1], log[..|log| - 1];
      if last.id != id then Unprompted(before, id)
      else if last.effect == Created || last.effect == Restarted then 0
      else Unprompted(before, id) + if last.effect == Arrived && !Outstanding(before, id) then 1 else 0
  }

  lemma TalliesExtended(log: seq<LogEntry>, entry: LogEntry, id: string)
    ensures Outstanding(log + [entry], id) ==
            if entry.id != id || entry.effect == Closed then Outstanding(log, id) else entry.effect == Sent
    ensures Unprompted(log + [entry], id) ==
            if entry.id != id then Unprompted(log, id)
            else if entry.effect == Created || entry.effect == Restarted then 0
            else Unprompted(log, id) + if entry.effect == Arrived && !Outstanding(log, id) then 1 else 0
  {
    assert (log + [entry])[..|log|] == log;
  }

  /** Arrivals and replays balance, and while the record is unresolved its state shows whether a replay is
      outstanding. */
  ghost predicate Balanced(s: State, id: string)
    requires id in s.db
  {
    && SinceRestart(s.log, id, Arrived) + (if Outstanding(s.log, id) then 1 else 0)
        == SinceRestart(s.log, id, Sent) + Unprompted(s.log, id)
    && (s.db[id].status != Resolved ==> (Outstanding(s.log, id) <==> s.db[id].status == Replayed))
  }

  lemma OtherStaysBalanced(s: State, entry: LogEntry, db': Db, x: string)
    requires x in s.db && x in db' && db'[x] == s.db[x] && x != entry.id && Balanced(s, x)
    ensures Balanced(State(db', s.log + [entry]), x)
  {
    hide SinceRestart, Outstanding, Unprompted;
    LogExtended(s.log, entry, x, Arrived);
    LogExtended(s.log, entry, x, Sent);
    TalliesExtended(s.log, entry, x);
  }

  lemma CreatedIsBalanced(maxRetries: int, s: State, a: Arrival, freshId: string, now: Time, s': State)
    requires !HasKey(s.db, ArrivalKey(a)) && Step(maxRetries, s, Ingest(a, freshId, now), s')
    ensures freshId in s'.db && Balanced(s', freshId) && freshId !in s.db
    ensures s' == State(s.db[freshId := Creation(maxRetries, a, freshId, now)], s.log + [LogEntry(freshId, Created)])
  {
    hide SinceRestart, Outstanding, Unprompted;
    var entry := LogEntry(freshId, Created);
    LogExtended(s.log, entry, freshId, Arrived);
    LogExtended(s.log, entry, freshId, Sent);
    TalliesExtended(s.log, entry, freshId);
  }

  lemma StepKeepsBalance(maxRetries: int, s: State, op: Op, s': State, id: string)
    requires Step(maxRetries, s, op, s') && id in s'.db && (id in s.db ==> Balanced(s, id))
    ensures Balanced(s', id)
  {
    hide Step, SinceRestart, Outstanding, Unprompted, HasKey, ArrivalKey, KeyOf;
    if op.Ingest? && !HasKey(s.db, ArrivalKey(op.arrival)) {
      CreatedIsBalanced(maxRetries, s, op.arrival, op.freshId, op.now, s');
      if id != op.freshId {
        OtherStaysBalanced(s, LogEntry(op.freshId, Created), s'.db, id);
      }
    } else if s' != s {
      var x, r, effect := Target(maxRetries, s, op, s');
      if id != x {
        OtherStaysBalanced(s, LogEntry(x, effect), s'.db, id);
      } else {
        LogExtended(s.log, LogEntry(id, effect), id, Arrived);
        LogExtended(s.log, LogEntry(id, effect), id, Sent);
        TalliesExtended(s.log, LogEntry(id, effect), id);
      }
    }
  }

  lemma {:induction false} RunKeepsBalance(maxRetries: int, ss: seq<State>, ops: seq<Op>, i: nat, id: string)
    requires Run(maxRetries, ss, ops) && i < |ss| && id in ss[i].db
    ensures Balanced(ss[i], id)
  {
    if i > 0 {
      if id in ss[i - 1].db {
        RunKeepsBalance(maxRetries, ss, ops, i - 1, id);
      }
      StepKeepsBalance(maxRetries, ss[i - 1], ops[i - 1], ss[i], id);
    }
  }

  /** A poisoned record went through its full bound of replays exactly when the only unprompted arrivals
      are those that came after it was poisoned. */
  lemma PoisonedByReplaysIff(maxRetries: int, ss: seq<State>, ops: seq<Op>, i: nat, id: string)
    requires Run(maxRetries, ss, ops) && i < |ss| && id in ss[i].db && ss[i].db[id].status == Poisoned
    ensures var e, log := ss[i].db[id], ss[i].log;
            && SinceRestart(log, id, Sent) + Unprompted(log, id) == e.retryCount
            && (SinceRestart(log, id, Sent) == e.maxRetries <==> Unprompted(log, id) == e.retryCount - e.maxRetries)
  {
    RunKeepsBalance(maxRetries, ss, ops, i, id);
    ReachableRecords(maxRetries, ss, ops, i, id);
  }

  /** What a caller can check beforehand: an arrival is unprompted exactly when it does not find the
      record in state replayed. */
  lemma UnpromptedIffNotReplayed(maxRetries: int, ss: seq<State>, ops: seq<Op>, i: nat, id: string)
    requires Run(maxRetries, ss, ops) && i < |ops| && id in ss[i].db
    requires ops[i].Ingest? && ss[i + 1].log == ss[i].log + [LogEntry(id, Arrived)]
    ensures Unprompted(ss[i + 1].log, id) == Unprompted(ss[i].log, id) + if ss[i].db[id].status == Replayed then 0
            else 1
  {
    var s, s' := ss[i], ss[i + 1];
    RunKeepsBalance(maxRetries, ss, ops, i, id);
    TalliesExtended(s.log, LogEntry(id, Arrived), id);
    assert Step(maxRetries, s, ops[i], s');
    assert s'.log[|s.log|] == LogEntry(id, Arrived);
    var x, r, effect := Target(maxRetries, s, ops[i], s');
    assert s'.log[|s.log|] == LogEntry(x, effect);
  }

  /** The arrival finds its record, if there is one, replayed or resolved. */
  ghost predicate Prompted(s: State, op: Op) {
    op.Ingest? ==> forall id | id in s.db && KeyOf(s.db[id]) == ArrivalKey(op.arrival) ::
        s.db[id].status == Replayed
        || s.db[id].status == Resolved
  }

  lemma {:induction false} PromptedRun(maxRetries: int, ss: seq<State>, ops: seq<Op>, i: nat, id: string)
    requires Run(maxRetries, ss, ops) && i < |ss| && forall j | 0 <= j < i :: Prompted(ss[j], ops[j])
    requires id in ss[i].db
    ensures Unprompted(ss[i].log, id) == 0
  {
    if i > 0 {
      var s, op, s' := ss[i - 1], ops[i - 1], ss[i];
      if id in s.db {
        PromptedRun(maxRetries, ss, ops, i - 1, id);
        RunKeepsBalance(maxRetries, ss, ops, i - 1, id);
      }
      PromptedStep(maxRetries, s, op, s', id);
    }
  }

  lemma PromptedStep(maxRetries: int, s: State, op: Op, s': State, id: string)
    requires Step(maxRetries, s, op, s') && Prompted(s, op) && id in s'.db
    requires id in s.db ==> Balanced(s, id) && Unprompted(s.log, id) == 0
    ensures Unprompted(s'.log, id) == 0
  {
    if op.Ingest? && !HasKey(s.db, ArrivalKey(op.arrival)) {
      TalliesExtended(s.log, LogEntry(op.freshId, Created), id);
    } else if s' != s {
      var x, r, effect := Target(maxRetries, s, op, s');
      TalliesExtended(s.log, LogEntry(x, effect), id);
    }
  }

  /** The documented rule: where every arrival answers a replay, a poisoned record had exactly its bound of
      failed replays. */
  lemma PoisonedAfterFailedReplays(maxRetries: int, ss: seq<State>, ops: seq<Op>, i: nat, id: string)
    requires Run(maxRetries, ss, ops) && i < |ss| && forall j | 0 <= j < i :: Prompted(ss[j], ops[j])
    requires id in ss[i].db && ss[i].db[id].status == Poisoned
    ensures SinceRestart(ss[i].log, id, Sent) == ss[i].db[id].maxRetries == ss[i].db[id].retryCount
  {
    PromptedRun(maxRetries, ss, ops, i, id);
    PoisonedByReplaysIff(maxRetries, ss, ops, i, id);
    ReachableRecords(maxRetries, ss, ops, i, id);
  }
}
