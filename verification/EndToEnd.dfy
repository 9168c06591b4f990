/** The write pipeline end to end: an at-least-once transport, interleaved rating submissions and
    the dead-letter service, composed into one transition system.

    The environment may duplicate, reorder, delay and drop messages, give up on a message at any
    time and dead-letter it, and operate the dead-letter queue at will. A payload whose last copy is
    dropped is remembered in `lost` until it is submitted or replayed again, so every theorem says
    what a drop can cost. */
module EndToEnd {
  import opened Wrappers
  import opened DlqDomain
  import opened DlqRepository
  import W = WritePath
  import D = DlqLifecycle
  import Idempotency

  type Payload = seq<byte>

  datatype Config = Config(
    hash: string -> string, payloadHash: Payload -> string, decode: Payload -> Option<W.Request>,
    sensorName: string, trigger: string, maxRetries: int)

  datatype World = World(
    write: W.State,              // the ratings service
    carried: map<nat, Payload>,  // the message each submission call was delivered
    queue: multiset<Payload>,    // messages on the way to the ratings service
    dlqQueue: multiset<Payload>, // messages on the way to the dead-letter service
    lost: set<Payload>,          // payloads whose last copy the transport dropped, until submitted or replayed again
    dlq: D.State,                // the dead-letter service
    submitted: set<Payload>)

  datatype Event =
    | Submit(payload: Payload)
    | Duplicate(payload: Payload)
    | DuplicateDlq(payload: Payload)
    | Drop(payload: Payload)
    | DropDlq(payload: Payload)
    | Deliver(payload: Payload, caller: nat, ratingId: string)
    | Advance(action: W.Action)
    | DeadLetter(payload: Payload)
    | Ingest(arrival: D.Arrival, freshId: string, now: Time)
    | Operate(op: D.Op)

  const INITIAL: World := World(W.INITIAL, map[], multiset{}, multiset{}, {}, D.State(map[], []), {})

  function PayloadOf(e: Record): Payload {
    PayloadBytes(e.payload)
  }

  /** The call ended in an error: the sensor keeps the message. */
  predicate Failed(pc: W.Pc) {
    pc.SaveFailed? || pc.PublishRefused?
  }

  ghost predicate Carrying(w: World, c: nat, p: Payload) {
    && c in w.write.callers && c in w.carried && w.carried[c] == p
    && W.Busy(w.write.callers[c].pc)
  }

  ghost predicate InTransit(w: World, p: Payload) {
    p in w.queue || p in w.dlqQueue || exists c :: Carrying(w, c, p)
  }

  ghost predicate AppliedBy(w: World, c: nat, p: Payload) {
    c in w.write.callers && c in w.carried && w.carried[c] == p && w.write.callers[c].pc.Succeeded?
  }

  ghost predicate Applied(w: World, p: Payload) {
    exists c :: AppliedBy(w, c, p)
  }

  /** A dropped copy loses the payload only if no other copy is on its way and none was applied. */
  ghost function MarkLost(w: World, p: Payload): (r: World)
    ensures r == w.(lost := r.lost) && w.lost <= r.lost <= w.lost + {p}
  {
    if InTransit(w, p) || Applied(w, p) then w else w.(lost := w.lost + {p})
  }

  ghost predicate Step(cfg: Config, w: World, e: Event, w': World) {
    match e
    case Submit(p) => w' == w.(queue := w.queue + multiset{p}, submitted := w.submitted + {p}, lost := w.lost - {p})
    case Duplicate(p) => p in w.queue && w' == w.(queue := w.queue + multiset{p})
    case DuplicateDlq(p) => p in w.dlqQueue && w' == w.(dlqQueue := w.dlqQueue + multiset{p})
    case Drop(p) => p in w.queue && w' == MarkLost(w.(queue := w.queue - multiset{p}), p)
    case DropDlq(p) => p in w.dlqQueue && w' == MarkLost(w.(dlqQueue := w.dlqQueue - multiset{p}), p)
    case Deliver(p, c, id) =>
      && p in w.queue && cfg.decode(p).Some?
      && var r := cfg.decode(p).value;
      && W.Enabled(w.write, W.Arrive(c, r, id))
      && w' == w.(write := W.Next(cfg.hash, w.write, W.Arrive(c, r, id)), carried := w.carried[c := p],
                  queue := if W.IsValid(r) then w.queue - multiset{p} else w.queue)
    case Advance(a) =>
      && !a.Arrive? && W.Enabled(w.write, a) && a.caller in w.carried
      && var write' := W.Next(cfg.hash, w.write, a);
      && w' == w.(write := write',
                  queue := if Failed(write'.callers[a.caller].pc) then w.queue + multiset{w.carried[a.caller]}
                      else w.queue)
    case DeadLetter(p) => p in w.queue && w' == w.(queue := w.queue - multiset{p}, dlqQueue := w.dlqQueue + multiset{p})
    case Ingest(a, freshId, now) =>
      && a.payload.Some? && a.payload.value in w.dlqQueue && a.payloadHash == cfg.payloadHash(a.payload.value)
      && a.envelope.sensorName == cfg.sensorName && a.envelope.failedTrigger == cfg.trigger
      && D.Step(cfg.maxRetries, w.dlq, D.Ingest(a, freshId, now), w'.dlq)
      && w' == w.(dlqQueue := w.dlqQueue - multiset{a.payload.value}, dlq := w'.dlq)
    case Operate(op) =>
      && !op.Ingest? && D.Step(cfg.maxRetries, w.dlq, op, w'.dlq)
      && w' == w.(dlq := w'.dlq,
                  queue := if op.Replay? && w'.dlq != w.dlq then w.queue + multiset{PayloadOf(w.dlq.db[op.id])}
                           else w.queue,
                  lost := if op.Replay? && w'.dlq != w.dlq then w.lost - {PayloadOf(w.dlq.db[op.id])} else w.lost)
  }

  ghost predicate Run(cfg: Config, ws: seq<World>, events: seq<Event>) {
    && |ws| == |events| + 1
    && ws[0] == INITIAL
    && forall i :: 0 <= i < |events| ==> Step(cfg, ws[i], events[i], ws[i + 1])
  }

  // ---------------------------------------------------------------- where a payload can be

  /** What a step does to the callers and to what they carry. */
  lemma CallersMove(cfg: Config, w: World, e: Event, w': World)
    requires Step(cfg, w, e, w')
    ensures !e.Deliver? && !e.Advance? ==> w'.write == w.write && w'.carried == w.carried
    ensures e.Deliver? ==>
              && cfg.decode(e.payload).Some? && e.caller !in w.write.callers && e.payload in w.queue
              && w'.carried == w.carried[e.caller := e.payload]
                  && w'.write.callers.Keys == w.write.callers.Keys + {e.caller}
              && (forall c | c in w.write.callers :: w'.write.callers[c] == w.write.callers[c])
              && w'.write.callers[e.caller].request == cfg.decode(e.payload).value
              && (e.payload in w'.queue || w'.write.callers[e.caller].pc == W.Checking)
    ensures e.Advance? ==>
              && var c := e.action.caller;
              && c in w.write.callers && c in w.carried && w'.carried == w.carried
                  && w'.write.callers.Keys == w.write.callers.Keys
              && (forall d | d in w.write.callers && d != c :: w'.write.callers[d] == w.write.callers[d])
              && w'.write.callers[c].request == w.write.callers[c].request && W.Busy(w.write.callers[c].pc)
              && (W.Busy(w'.write.callers[c].pc) || w'.write.callers[c].pc.Succeeded? || Failed(w'.write.callers[c].pc))
              && w'.queue == (if Failed(w'.write.callers[c].pc) then w.queue + multiset{w.carried[c]} else w.queue)
  {
    hide D.Step, W.Next, W.Enabled, W.IsValid;
    if e.Deliver? {
      ArrivesFresh(w.write, W.Arrive(e.caller, cfg.decode(e.payload).value, e.ratingId));
      W.CallersMove(cfg.hash, w.write, W.Arrive(e.caller, cfg.decode(e.payload).value, e.ratingId));
    } else if e.Advance? {
      W.CallersMove(cfg.hash, w.write, e.action);
    }
  }

  lemma ArrivesFresh(s: W.State, a: W.Action)
    requires a.Arrive? && W.Enabled(s, a)
    ensures a.caller !in s.callers
  {
  }

  ghost predicate Accounted(w: World, p: Payload) {
    InTransit(w, p) || Applied(w, p) || p in w.lost
  }

  ghost predicate Filed(w: World, p: Payload) {
    exists id :: id in w.dlq.db && PayloadOf(w.dlq.db[id]) == p
  }

  // ---------------------------------------------------------------- the invariant

  ghost predicate CarriedInv(cfg: Config, w: World) {
    && w.carried.Keys == w.write.callers.Keys
    && forall c :: c in w.carried ==> cfg.decode(w.carried[c]) == Some(w.write.callers[c].request)
  }

  /** Every record was filed by this pipeline's sensor and trigger under its payload's digest. */
  ghost predicate RecordsInv(cfg: Config, w: World) {
    forall id :: id in w.dlq.db ==>
      KeyOf(w.dlq.db[id]) == NaturalKey(cfg.sensorName, cfg.trigger, cfg.payloadHash(PayloadOf(w.dlq.db[id])))
  }

  ghost predicate ReplayedInv(w: World) {
    forall id :: id in w.dlq.db && w.dlq.db[id].status == Replayed ==> Accounted(w, PayloadOf(w.dlq.db[id]))
  }

  ghost predicate SubmittedInv(w: World) {
    forall p :: p in w.submitted ==> Accounted(w, p) || Filed(w, p)
  }

  ghost predicate Inv(cfg: Config, w: World) {
    && W.Inv(cfg.hash, w.write) && D.Inv(w.dlq)
    && CarriedInv(cfg, w) && RecordsInv(cfg, w) && ReplayedInv(w)
  }

  /** No step other than its own ingestion makes an accounted payload unaccounted. */
  lemma AccountedPersists(cfg: Config, w: World, e: Event, w': World, p: Payload)
    requires Step(cfg, w, e, w') && CarriedInv(cfg, w) && Accounted(w, p)
    requires e.Ingest? ==> e.arrival.payload.value != p
    ensures Accounted(w', p)
  {
    hide Step, Carrying, AppliedBy, CarriedInv;
    if p in w.queue || p in w.dlqQueue || p in w.lost {
      WaitingPersists(cfg, w, e, w', p);
    } else if c :| Carrying(w, c, p) {
      CarriedOn(cfg, w, e, w', p, c);
    } else {
      var c :| AppliedBy(w, c, p);
      AppliedStays(cfg, w, e, w', p, c);
    }
  }

  lemma WaitingPersists(cfg: Config, w: World, e: Event, w': World, p: Payload)
    requires Step(cfg, w, e, w') && (p in w.queue || p in w.dlqQueue || p in w.lost)
    requires e.Ingest? ==> e.arrival.payload.value != p
    ensures Accounted(w', p)
  {
    hide Step, Carrying, Applied;
    if e.Drop? || e.DropDlq? {
      DroppedIsAccounted(cfg, w, e, w', p);
    } else if e.Deliver? {
      DeliveredIsCarried(cfg, w, e, w', p);
    } else {
      WaitsOn(cfg, w, e, w', p);
    }
  }

  lemma DroppedIsAccounted(cfg: Config, w: World, e: Event, w': World, p: Payload)
    requires Step(cfg, w, e, w') && (e.Drop? || e.DropDlq?)
    requires p in w.queue || p in w.dlqQueue || p in w.lost
    ensures Accounted(w', p)
  {
    hide D.Step, W.Next, W.Enabled, Carrying, Applied;
  }

  lemma DeliveredIsCarried(cfg: Config, w: World, e: Event, w': World, p: Payload)
    requires Step(cfg, w, e, w') && e.Deliver?
    requires p in w.queue || p in w.dlqQueue || p in w.lost
    ensures Accounted(w', p)
  {
    hide D.Step, W.Next, W.Enabled, W.IsValid, AppliedBy, W.Busy;
    CallersMove(cfg, w, e, w');
    BusyWhenChecking();
    if e.payload == p && p !in w'.queue {
      assert Carrying(w', e.caller, p);
    }
  }

  lemma WaitsOn(cfg: Config, w: World, e: Event, w': World, p: Payload)
    requires Step(cfg, w, e, w') && !e.Drop? && !e.DropDlq? && !e.Deliver?
    requires p in w.queue || p in w.dlqQueue || p in w.lost
    requires e.Ingest? ==> e.arrival.payload.value != p
    ensures p in w'.queue || p in w'.dlqQueue || p in w'.lost
  {
    hide Step;
    if e.Operate? {
      WaitsOnOperator(cfg, w, e, w', p);
    } else if e.Advance? {
      WaitsOnCaller(cfg, w, e, w', p);
    } else {
      WaitsOnTransport(cfg, w, e, w', p);
    }
  }

  lemma WaitsOnOperator(cfg: Config, w: World, e: Event, w': World, p: Payload)
    requires Step(cfg, w, e, w') && e.Operate? && (p in w.queue || p in w.dlqQueue || p in w.lost)
    ensures p in w'.queue || p in w'.dlqQueue || p in w'.lost
  {
    hide D.Step, W.Next, W.Enabled, W.IsValid, MarkLost, W.Busy, PayloadOf;
  }

  lemma WaitsOnCaller(cfg: Config, w: World, e: Event, w': World, p: Payload)
    requires Step(cfg, w, e, w') && e.Advance? && (p in w.queue || p in w.dlqQueue || p in w.lost)
    ensures p in w'.queue || p in w'.dlqQueue || p in w'.lost
  {
    hide D.Step, W.Next, W.Enabled, W.IsValid, MarkLost, W.Busy, PayloadOf;
  }

  lemma WaitsOnTransport(cfg: Config, w: World, e: Event, w': World, p: Payload)
    requires Step(cfg, w, e, w') && (p in w.queue || p in w.dlqQueue || p in w.lost)
    requires e.Submit? || e.Duplicate? || e.DuplicateDlq? || e.DeadLetter?
             || (e.Ingest? && e.arrival.payload.value != p)
    ensures p in w'.queue || p in w'.dlqQueue || p in w'.lost
  {
    hide D.Step, W.Next, W.Enabled, W.IsValid, MarkLost, W.Busy, PayloadOf;
  }

  lemma BusyWhenChecking()
    ensures W.Busy(W.Checking)
  {
  }

  lemma AppliedStays(cfg: Config, w: World, e: Event, w': World, p: Payload, c: nat)
    requires Step(cfg, w, e, w') && AppliedBy(w, c, p)
    ensures AppliedBy(w', c, p)
  {
    hide Step;
    CallersMove(cfg, w, e, w');
  }

  lemma CarriedOn(cfg: Config, w: World, e: Event, w': World, p: Payload, c: nat)
    requires Step(cfg, w, e, w') && Carrying(w, c, p)
    ensures Carrying(w', c, p) || AppliedBy(w', c, p) || p in w'.queue
  {
    hide Step;
    CallersMove(cfg, w, e, w');
  }

  lemma CarriedStep(cfg: Config, w: World, e: Event, w': World)
    requires CarriedInv(cfg, w) && Step(cfg, w, e, w')
    ensures CarriedInv(cfg, w')
  {
    hide Step;
    CallersMove(cfg, w, e, w');
  }

  /** A change of the dead-letter store keeps the payload and key of every record it held, and a
      new record takes both from the arrival. */
  lemma RecordsStep(cfg: Config, w: World, op: D.Op, dlq': D.State, id: string)
    requires D.Step(cfg.maxRetries, w.dlq, op, dlq') && id in dlq'.db
    ensures if id in w.dlq.db
            then PayloadOf(dlq'.db[id]) == PayloadOf(w.dlq.db[id]) && KeyOf(dlq'.db[id]) == KeyOf(w.dlq.db[id])
            else op.Ingest? && PayloadOf(dlq'.db[id]) == PayloadBytes(op.arrival.payload)
                 && KeyOf(dlq'.db[id]) == D.ArrivalKey(op.arrival)
                 && dlq'.db[id].status == Pending
  {
    if dlq' != w.dlq && !(op.Ingest? && !D.HasKey(w.dlq.db, D.ArrivalKey(op.arrival))) {
      var x, r, effect := D.Target(cfg.maxRetries, w.dlq, op, dlq');
    }
  }

  lemma KeepsRecords(cfg: Config, w: World, op: D.Op, dlq': D.State)
    requires D.Step(cfg.maxRetries, w.dlq, op, dlq')
    ensures w.dlq.db.Keys <= dlq'.db.Keys
  {
    if dlq' != w.dlq && !(op.Ingest? && !D.HasKey(w.dlq.db, D.ArrivalKey(op.arrival))) {
      var x, r, effect := D.Target(cfg.maxRetries, w.dlq, op, dlq');
    }
  }

  function DlqOp(e: Event): D.Op
    requires e.Ingest? || e.Operate?
  {
    if e.Operate? then e.op else D.Ingest(e.arrival, e.freshId, e.now)
  }

  /** What a step does to the dead-letter service, and what an accepted replay sends. */
  lemma DlqMoves(cfg: Config, w: World, e: Event, w': World)
    requires Step(cfg, w, e, w')
    ensures !e.Ingest? && !e.Operate? ==> w'.dlq == w.dlq
    ensures e.Ingest? || e.Operate? ==> D.Step(cfg.maxRetries, w.dlq, DlqOp(e), w'.dlq)
    ensures e.Ingest? ==>
              && e.arrival.payload.Some? && e.arrival.payloadHash == cfg.payloadHash(e.arrival.payload.value)
              && e.arrival.envelope.sensorName == cfg.sensorName && e.arrival.envelope.failedTrigger == cfg.trigger
    ensures e.Operate? ==>
            !e.op.Ingest?
            && (e.op.Replay? && w'.dlq != w.dlq && e.op.id in w.dlq.db ==> PayloadOf(w.dlq.db[e.op.id]) in w'.queue)
  {
    hide D.Step, W.Next, W.Enabled, InTransit, Applied, PayloadOf;
  }

  lemma DlqStepKeepsRecords(cfg: Config, w: World, e: Event, w': World)
    requires RecordsInv(cfg, w) && Step(cfg, w, e, w')
    ensures RecordsInv(cfg, w')
  {
    hide Step, D.Step;
    DlqMoves(cfg, w, e, w');
    if e.Ingest? || e.Operate? {
      forall id | id in w'.dlq.db
        ensures KeyOf(w'.dlq.db[id])
                == NaturalKey(cfg.sensorName, cfg.trigger, cfg.payloadHash(PayloadOf(w'.dlq.db[id])))
      {
        RecordsStep(cfg, w, DlqOp(e), w'.dlq, id);
      }
    }
  }

  /** A record left in state replayed by a dead-letter call was there before, or was just sent. */
  lemma ReplayedBefore(cfg: Config, w: World, op: D.Op, dlq': D.State, id: string)
    requires D.Inv(w.dlq) && D.Step(cfg.maxRetries, w.dlq, op, dlq')
    requires id in dlq'.db && dlq'.db[id].status == Replayed
    ensures id in w.dlq.db
    ensures w.dlq.db[id].status == Replayed || (op.Replay? && op.id == id && dlq' != w.dlq)
    ensures op.Ingest? ==> KeyOf(w.dlq.db[id]) != D.ArrivalKey(op.arrival)
  {
    RecordsStep(cfg, w, op, dlq', id);
    if op.Ingest? && D.HasKey(w.dlq.db, D.ArrivalKey(op.arrival)) {
      if dlq' != w.dlq {
        var x, r, effect := D.Target(cfg.maxRetries, w.dlq, op, dlq');
      } else {
        var x := D.AbsorbedBy(cfg.maxRetries, w.dlq, op);
      }
    } else if dlq' != w.dlq && !op.Ingest? {
      var x, r, effect := D.Target(cfg.maxRetries, w.dlq, op, dlq');
    }
  }

  lemma ReplayedStep(cfg: Config, w: World, e: Event, w': World)
    requires Inv(cfg, w) && Step(cfg, w, e, w')
    ensures ReplayedInv(w')
  {
    hide Step, D.Step, W.Inv, D.Inv, Accounted, CarriedInv;
    DlqMoves(cfg, w, e, w');
    forall id | id in w'.dlq.db && w'.dlq.db[id].status == Replayed
      ensures Accounted(w', PayloadOf(w'.dlq.db[id]))
    {
      ReplayedStays(cfg, w, e, w', id);
    }
  }

  lemma ReplayedStays(cfg: Config, w: World, e: Event, w': World, id: string)
    requires Inv(cfg, w) && Step(cfg, w, e, w') && id in w'.dlq.db && w'.dlq.db[id].status == Replayed
    ensures Accounted(w', PayloadOf(w'.dlq.db[id]))
  {
    hide Step, D.Step, W.Inv, D.Inv, CarriedInv, InTransit, Applied, PayloadOf;
    DlqMoves(cfg, w, e, w');
    if e.Ingest? || e.Operate? {
      RecordsStep(cfg, w, DlqOp(e), w'.dlq, id);
      ReplayedBefore(cfg, w, DlqOp(e), w'.dlq, id);
    }
    if w.dlq.db[id].status == Replayed {
      if e.Ingest? {
        OtherPayload(cfg, w, e, id);
      }
      AccountedPersists(cfg, w, e, w', PayloadOf(w'.dlq.db[id]));
    } else {
      QueuedIsAccounted(w', PayloadOf(w'.dlq.db[id]));
    }
  }

  /** A record with another key than the arrival's holds another payload. */
  lemma OtherPayload(cfg: Config, w: World, e: Event, id: string)
    requires RecordsInv(cfg, w) && id in w.dlq.db && e.Ingest? && KeyOf(w.dlq.db[id]) != D.ArrivalKey(e.arrival)
    requires e.arrival.payload.Some? && e.arrival.payloadHash == cfg.payloadHash(e.arrival.payload.value)
    requires e.arrival.envelope.sensorName == cfg.sensorName && e.arrival.envelope.failedTrigger == cfg.trigger
    ensures e.arrival.payload.value != PayloadOf(w.dlq.db[id])
  {
  }

  lemma QueuedIsAccounted(w: World, p: Payload)
    requires p in w.queue
    ensures Accounted(w, p)
  {
  }

  lemma WriteMoves(cfg: Config, w: World, e: Event, w': World)
    requires Step(cfg, w, e, w')
    ensures e.Deliver? ==>
              && cfg.decode(e.payload).Some?
              && var a := W.Arrive(e.caller, cfg.decode(e.payload).value, e.ratingId);
              W.Enabled(w.write, a) && w'.write == W.Next(cfg.hash, w.write, a)
    ensures e.Advance? ==> W.Enabled(w.write, e.action) && w'.write == W.Next(cfg.hash, w.write, e.action)
    ensures !e.Deliver? && !e.Advance? ==> w'.write == w.write
  {
    hide D.Step, W.Next, W.Enabled, InTransit, Applied, PayloadOf;
  }

  lemma StepKeepsInv(cfg: Config, w: World, e: Event, w': World)
    requires Inv(cfg, w) && Step(cfg, w, e, w')
    ensures Inv(cfg, w')
  {
    hide Step, D.Step, W.Inv, D.Inv, CarriedInv, RecordsInv, ReplayedInv, W.Next, W.Enabled;
    WriteMoves(cfg, w, e, w');
    DlqMoves(cfg, w, e, w');
    if e.Deliver? {
      W.StepKeepsInv(cfg.hash, w.write, W.Arrive(e.caller, cfg.decode(e.payload).value, e.ratingId));
    } else if e.Advance? {
      W.StepKeepsInv(cfg.hash, w.write, e.action);
    } else if e.Ingest? || e.Operate? {
      D.StepKeepsInv(cfg.maxRetries, w.dlq, DlqOp(e), w'.dlq);
    }
    CarriedStep(cfg, w, e, w');
    DlqStepKeepsRecords(cfg, w, e, w');
    ReplayedStep(cfg, w, e, w');
  }

  lemma {:induction false} RunKeepsInv(cfg: Config, ws: seq<World>, events: seq<Event>, n: nat)
    requires Run(cfg, ws, events) && n < |ws|
    ensures Inv(cfg, ws[n])
  {
    if n > 0 {
      RunKeepsInv(cfg, ws, events, n - 1);
      StepKeepsInv(cfg, ws[n - 1], events[n - 1], ws[n]);
    }
  }

  // ---------------------------------------------------------------- what being lost means

  /** A lost payload has no copy left anywhere on the way. */
  ghost predicate LostInv(w: World) {
    forall p | p in w.lost :: !InTransit(w, p)
  }

  lemma CarriedBefore(cfg: Config, w: World, e: Event, w': World, c: nat, p: Payload)
    requires Step(cfg, w, e, w') && Carrying(w', c, p)
    ensures Carrying(w, c, p) || p in w.queue
  {
    hide Step;
    CallersMove(cfg, w, e, w');
  }

  lemma QueuedBefore(cfg: Config, w: World, e: Event, w': World, p: Payload)
    requires Step(cfg, w, e, w') && (p in w'.queue || p in w'.dlqQueue) && p in w'.lost
    ensures p in w.queue || p in w.dlqQueue || (e.Advance? && Carrying(w, e.action.caller, p))
  {
    hide Step, W.Busy;
    if e.Advance? {
      CallersMove(cfg, w, e, w');
      AdvanceKeepsDlqQueue(cfg, w, e, w');
    } else {
      OthersKeepQueues(cfg, w, e, w', p);
    }
  }

  lemma AdvanceKeepsDlqQueue(cfg: Config, w: World, e: Event, w': World)
    requires Step(cfg, w, e, w') && e.Advance?
    ensures w'.dlqQueue == w.dlqQueue
  {
    hide D.Step, W.Next, W.Enabled, W.IsValid;
  }

  lemma OthersKeepQueues(cfg: Config, w: World, e: Event, w': World, p: Payload)
    requires Step(cfg, w, e, w') && !e.Advance? && (p in w'.queue || p in w'.dlqQueue) && p in w'.lost
    ensures p in w.queue || p in w.dlqQueue
  {
    hide Step;
    if e.Drop? || e.DropDlq? {
      DropsKeepQueues(cfg, w, e, w', p);
    } else if e.Operate? {
      OperatorsKeepQueues(cfg, w, e, w', p);
    } else {
      MovesKeepQueues(cfg, w, e, w', p);
    }
  }

  lemma DropsKeepQueues(cfg: Config, w: World, e: Event, w': World, p: Payload)
    requires Step(cfg, w, e, w') && (e.Drop? || e.DropDlq?) && (p in w'.queue || p in w'.dlqQueue)
    ensures p in w.queue || p in w.dlqQueue
  {
    hide D.Step, W.Next, W.Enabled, W.IsValid, InTransit, Applied;
  }

  lemma OperatorsKeepQueues(cfg: Config, w: World, e: Event, w': World, p: Payload)
    requires Step(cfg, w, e, w') && e.Operate? && (p in w'.queue || p in w'.dlqQueue) && p in w'.lost
    ensures p in w.queue || p in w.dlqQueue
  {
    hide D.Step, W.Next, W.Enabled, W.IsValid, MarkLost, PayloadOf;
  }

  lemma MovesKeepQueues(cfg: Config, w: World, e: Event, w': World, p: Payload)
    requires Step(cfg, w, e, w') && (p in w'.queue || p in w'.dlqQueue) && p in w'.lost
    requires !e.Advance? && !e.Drop? && !e.DropDlq? && !e.Operate?
    ensures p in w.queue || p in w.dlqQueue
  {
    hide D.Step, W.Next, W.Enabled, W.IsValid, MarkLost, PayloadOf;
  }

  /** A payload comes into transit only by a submission or an accepted replay, and both clear it. */
  lemma NothingReappears(cfg: Config, w: World, e: Event, w': World, p: Payload)
    requires Step(cfg, w, e, w') && InTransit(w', p) && p in w'.lost
    ensures InTransit(w, p)
  {
    hide Step, Carrying;
    if p in w'.queue || p in w'.dlqQueue {
      QueuedBefore(cfg, w, e, w', p);
    } else {
      var c :| Carrying(w', c, p);
      CarriedBefore(cfg, w, e, w', c, p);
    }
  }

  lemma LostStep(cfg: Config, w: World, e: Event, w': World)
    requires LostInv(w) && Step(cfg, w, e, w')
    ensures LostInv(w')
  {
    hide Step, InTransit;
    forall p | p in w'.lost
      ensures !InTransit(w', p)
    {
      if p !in w.lost {
        NewlyLost(cfg, w, e, w', p);
      } else if InTransit(w', p) {
        NothingReappears(cfg, w, e, w', p);
      }
    }
  }

  lemma NewlyLost(cfg: Config, w: World, e: Event, w': World, p: Payload)
    requires Step(cfg, w, e, w') && p in w'.lost && p !in w.lost
    ensures !InTransit(w', p)
  {
    if e.Drop? {
      MarkLostSendsNothing(w.(queue := w.queue - multiset{p}), p);
    } else {
      MarkLostSendsNothing(w.(dlqQueue := w.dlqQueue - multiset{p}), p);
    }
  }

  lemma MarkLostSendsNothing(w: World, p: Payload)
    ensures InTransit(MarkLost(w, p), p) <==> InTransit(w, p)
  {
    forall c
      ensures Carrying(MarkLost(w, p), c, p) <==> Carrying(w, c, p)
    {
    }
  }

  lemma {:induction false} RunKeepsLost(cfg: Config, ws: seq<World>, events: seq<Event>, n: nat)
    requires Run(cfg, ws, events) && n < |ws|
    ensures LostInv(ws[n])
  {
    if n > 0 {
      RunKeepsLost(cfg, ws, events, n - 1);
      LostStep(cfg, ws[n - 1], events[n - 1], ws[n]);
    }
  }

  // ---------------------------------------------------------------- effectively once

  /** Whatever is duplicated, reordered, dropped, dead-lettered or replayed: at most one rating row
      per idempotency key, and every replayed dead letter is still on its way, or applied, or the transport
      dropped its last copy since it was last submitted or replayed. */
  lemma EffectivelyOnce(cfg: Config, ws: seq<World>, events: seq<Event>, n: nat)
    requires Run(cfg, ws, events) && n < |ws|
    ensures var w := ws[n];
            && (forall i :: 0 <= i < |w.write.rows| ==> w.write.rows[i].caller in w.write.callers)
            && (forall i, j :: 0 <= i < j < |w.write.rows|
                               ==> W.RowKey(cfg.hash, w.write, i) != W.RowKey(cfg.hash, w.write, j))
            && (forall id :: id in w.dlq.db && w.dlq.db[id].status == Replayed
                             ==> Accounted(w, PayloadOf(w.dlq.db[id])))
  {
    RunKeepsInv(cfg, ws, events, n);
    var s := ws[n].write;
    forall i, j | 0 <= i < j < |s.rows|
      ensures s.rows[i].caller in s.callers && s.rows[j].caller in s.callers
              && W.RowKey(cfg.hash, s, i) != W.RowKey(cfg.hash, s, j)
    {
      W.RowKeysDistinct(cfg.hash, s, i, j);
    }
    forall i | 0 <= i < |s.rows|
      ensures s.rows[i].caller in s.callers
    {
      W.RowsBelongToWinners(cfg.hash, s, i);
    }
  }

  ghost predicate RowFor(cfg: Config, w: World, key: string) {
    W.RowFor(cfg.hash, w.write, key)
  }

  ghost predicate EventFor(cfg: Config, w: World, r: W.Request) {
    exists i :: 0 <= i < |w.write.published|
        && w.write.published[i].event == W.EventOf(cfg.hash, w.write.published[i].event.id, r)
  }

  /** What "applied" is worth: an event of the request is published and its key is recorded; its row is
      saved exactly when the save of the call that recorded the key is neither pending nor failed. */
  lemma AppliedMeansSavedAndPublished(cfg: Config, ws: seq<World>, events: seq<Event>, n: nat, p: Payload)
    requires Run(cfg, ws, events) && n < |ws| && Applied(ws[n], p)
    ensures cfg.decode(p).Some?
    ensures var w, r := ws[n], cfg.decode(p).value;
            var key := W.RequestKey(cfg.hash, r);
            && EventFor(cfg, w, r) && key in w.write.keys
            && (RowFor(cfg, w, key) <==> !W.SavePending(cfg.hash, w.write, key) && !W.SaveLost(cfg.hash, w.write, key))
  {
    RunKeepsInv(cfg, ws, events, n);
    var w := ws[n];
    var c :| AppliedBy(w, c, p);
    var r := cfg.decode(p).value;
    assert W.HasEvent(w.write, c);
    var i :| 0 <= i < |w.write.published| && w.write.published[i].caller == c;
    assert W.IsPublicationOf(cfg.hash, w.write, w.write.published[i]);
    W.RecordedKeyHasRowIff(cfg.hash, w.write, W.RequestKey(cfg.hash, r));
  }

  // ---------------------------------------------------------------- nothing vanishes

  lemma FiledPersists(cfg: Config, w: World, e: Event, w': World, p: Payload)
    requires Step(cfg, w, e, w') && Filed(w, p)
    ensures Filed(w', p)
  {
    var id :| id in w.dlq.db && PayloadOf(w.dlq.db[id]) == p;
    if e.Ingest? || e.Operate? {
      KeepsRecords(cfg, w, DlqOp(e), w'.dlq);
      RecordsStep(cfg, w, DlqOp(e), w'.dlq, id);
    }
  }

  /** An ingested payload is filed: under a record of its own, or under one with the same digest,
      which an injective digest makes the same payload. */
  lemma IngestFiles(cfg: Config, w: World, e: Event, w': World)
    requires Idempotency.Injective(cfg.payloadHash)
    requires RecordsInv(cfg, w) && Step(cfg, w, e, w') && e.Ingest?
    ensures Filed(w', e.arrival.payload.value)
  {
    var a := e.arrival;
    KeepsRecords(cfg, w, DlqOp(e), w'.dlq);
    if D.HasKey(w.dlq.db, D.ArrivalKey(a)) {
      var id :| id in w.dlq.db && KeyOf(w.dlq.db[id]) == D.ArrivalKey(a);
      RecordsStep(cfg, w, DlqOp(e), w'.dlq, id);
      assert PayloadOf(w.dlq.db[id]) == a.payload.value;
    } else {
      assert e.freshId in w'.dlq.db;
      RecordsStep(cfg, w, DlqOp(e), w'.dlq, e.freshId);
    }
  }

  /** Every submitted payload is, at all times, on its way, applied, filed as a dead letter, or was dropped. */
  lemma {:induction false} NothingVanishes(cfg: Config, ws: seq<World>, events: seq<Event>, n: nat)
    requires Run(cfg, ws, events) && n < |ws| && Idempotency.Injective(cfg.payloadHash)
    ensures SubmittedInv(ws[n])
  {
    if n > 0 {
      NothingVanishes(cfg, ws, events, n - 1);
      RunKeepsInv(cfg, ws, events, n - 1);
      var w, e, w' := ws[n - 1], events[n - 1], ws[n];
      assert Step(cfg, w, e, w');
      forall p | p in w'.submitted
        ensures Accounted(w', p) || Filed(w', p)
      {
        SubmittedStays(cfg, w, e, w', p);
      }
    }
  }

  lemma SubmittedStays(cfg: Config, w: World, e: Event, w': World, p: Payload)
    requires Idempotency.Injective(cfg.payloadHash)
    requires Inv(cfg, w) && SubmittedInv(w) && Step(cfg, w, e, w') && p in w'.submitted
    ensures Accounted(w', p) || Filed(w', p)
  {
    if p !in w.submitted {
      assert p in w'.queue;
    } else if Filed(w, p) {
      FiledPersists(cfg, w, e, w', p);
    } else if e.Ingest? && e.arrival.payload.value == p {
      IngestFiles(cfg, w, e, w');
    } else {
      AccountedPersists(cfg, w, e, w', p);
    }
  }

  /** The payload was submitted and is no dead letter, or it is a dead letter in state replayed. */
  ghost predicate SentOnItsWay(w: World, p: Payload) {
    || (p in w.submitted && !Filed(w, p))
    || exists id :: id in w.dlq.db && w.dlq.db[id].status == Replayed && PayloadOf(w.dlq.db[id]) == p
  }

  /** Whatever happens to other payloads: once no copy of this one is on its way, and unless it is lost,
      its event is published, and its row is saved exactly when its key's save is neither pending nor failed. */
  lemma LandedPayloadDelivered(cfg: Config, ws: seq<World>, events: seq<Event>, n: nat, p: Payload)
    requires Run(cfg, ws, events) && n < |ws| && Idempotency.Injective(cfg.payloadHash)
    requires SentOnItsWay(ws[n], p) && !InTransit(ws[n], p) && p !in ws[n].lost
    ensures cfg.decode(p).Some?
    ensures var w, r := ws[n], cfg.decode(p).value;
            var key := W.RequestKey(cfg.hash, r);
            && EventFor(cfg, w, r)
            && (RowFor(cfg, w, key) <==> !W.SavePending(cfg.hash, w.write, key) && !W.SaveLost(cfg.hash, w.write, key))
  {
    hide Run, Inv, InTransit, Applied, Filed;
    NothingVanishes(cfg, ws, events, n);
    SentIsAccounted(cfg, ws, events, n, p);
    AppliedMeansSavedAndPublished(cfg, ws, events, n, p);
  }

  lemma SentIsAccounted(cfg: Config, ws: seq<World>, events: seq<Event>, n: nat, p: Payload)
    requires Run(cfg, ws, events) && n < |ws| && SentOnItsWay(ws[n], p) && SubmittedInv(ws[n])
    ensures Accounted(ws[n], p)
  {
    hide Run, Accounted, Filed;
    RunKeepsInv(cfg, ws, events, n);
  }

  ghost predicate Drained(w: World) {
    w.queue == multiset{} && w.dlqQueue == multiset{} && W.Quiescent(w.write)
  }

  /** Once everything has been delivered: a payload that is not lost and was submitted has its event, or is
      a dead letter; one whose dead letter is in state replayed has its event as well; and either has its
      row exactly when the save of its own key did not fail. */
  lemma DrainedPipelineDelivered(cfg: Config, ws: seq<World>, events: seq<Event>, n: nat, p: Payload)
    requires Run(cfg, ws, events) && n < |ws| && Idempotency.Injective(cfg.payloadHash) && Drained(ws[n])
    requires SentOnItsWay(ws[n], p) && p !in ws[n].lost
    ensures cfg.decode(p).Some?
    ensures var w, r := ws[n], cfg.decode(p).value;
            var key := W.RequestKey(cfg.hash, r);
            EventFor(cfg, w, r) && (RowFor(cfg, w, key) <==> !W.SaveLost(cfg.hash, w.write, key))
  {
    DrainedHasNothingInTransit(ws[n], p);
    LandedPayloadDelivered(cfg, ws, events, n, p);
    QuiescentSavesNothing(cfg.hash, ws[n].write, W.RequestKey(cfg.hash, cfg.decode(p).value));
  }

  lemma DrainedHasNothingInTransit(w: World, p: Payload)
    requires Drained(w)
    ensures !InTransit(w, p)
  {
  }

  lemma QuiescentSavesNothing(hash: string -> string, s: W.State, key: string)
    requires W.Quiescent(s)
    ensures !W.SavePending(hash, s, key)
  {
  }

  // ---------------------------------------------------------------- what replays cannot repair

  lemma SaveLostPersists(cfg: Config, w: World, e: Event, w': World, key: string)
    requires Step(cfg, w, e, w') && W.SaveLost(cfg.hash, w.write, key)
    ensures W.SaveLost(cfg.hash, w'.write, key)
  {
    hide Step, W.SaveLost, W.Next, W.Enabled;
    WriteMoves(cfg, w, e, w');
    if e.Deliver? {
      W.SaveLostStays(cfg.hash, w.write, W.Arrive(e.caller, cfg.decode(e.payload).value, e.ratingId), key);
    } else if e.Advance? {
      W.SaveLostStays(cfg.hash, w.write, e.action, key);
    }
  }

  /** The documentation calls replays safe because the write services are idempotent. After a failed save
      no submission, redelivery or replay brings the row back. */
  lemma {:induction false} ReplaysNeverRestoreTheRow(cfg: Config, ws: seq<World>, events: seq<Event>, i: nat, j: nat,
          key: string)
    requires Run(cfg, ws, events) && i <= j < |ws| && W.SaveLost(cfg.hash, ws[i].write, key)
    ensures W.SaveLost(cfg.hash, ws[j].write, key) && !RowFor(cfg, ws[j], key)
    decreases j
  {
    hide W.SaveLost, W.RowFor, Step, Inv;
    if i < j {
      ReplaysNeverRestoreTheRow(cfg, ws, events, i, j - 1, key);
      SaveLostPersists(cfg, ws[j - 1], events[j - 1], ws[j], key);
    }
    WriteInv(cfg, ws, events, j);
    W.LostKeyHasNoRow(cfg.hash, ws[j].write, key);
  }

  lemma WriteInv(cfg: Config, ws: seq<World>, events: seq<Event>, n: nat)
    requires Run(cfg, ws, events) && n < |ws|
    ensures W.KeysInv(cfg.hash, ws[n].write) && W.RowsInv(ws[n].write)
  {
    hide Run, W.KeysInv, W.RowsInv;
    RunKeepsInv(cfg, ws, events, n);
  }
}
