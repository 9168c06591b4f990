/** Overlapping calls of the dead-letter service.

    No lock spans a call: it reads a copy under one lock, decides, and writes the whole record under
    another. Here a call is those two steps. Where no two calls on one natural key overlap, each is one
    step of the atomic model; where they do, keys can repeat and resolutions can be lost. */
module DlqInterleaved {
  import opened Wrappers
  import opened DlqDomain
  import opened DlqRepository
  import opened DlqLifecycle

  datatype Write = Write(id: string, record: Record, effect: Effect)
  datatype InFlight = InFlight(op: Op, write: Write)
  datatype World = World(store: State, calls: map<nat, InFlight>)

  /** `seen` is the record an arrival found under its key, if any. */
  datatype Act = Read(caller: nat, op: Op, seen: string) | Finish(caller: nat)

  const INITIAL: World := World(State(map[], []), map[])

  // ---------------------------------------------------------------- the two steps of a call

  function Planned(id: string, effect: Effect, r: Result<Record, DlqError>): Option<Write> {
    if r.Ok? then Some(Write(id, r.value, effect)) else None
  }

  /** What the call decides to write on what it reads; None when it is refused or absorbed. */
  ghost function PlanOf(maxRetries: int, db: Db, op: Op, seen: string): Option<Write>
    requires op.Ingest? && HasKey(db, ArrivalKey(op.arrival)) ==> seen in db
  {
    match op
    case Ingest(a, freshId, now) =>
      if HasKey(db, ArrivalKey(a)) then Planned(seen, Arrived, ReIngestOf(db[seen], now))
      else Some(Write(freshId, Creation(maxRetries, a, freshId, now), Created))
    case Replay(id, delivered, now) => Planned(id, Sent, ReplayResult(db, id, delivered, now))
    case Resolve(id, resolver, now) => Planned(id, Closed, ResolveResult(db, id, resolver, now))
    case Reset(id, now) => Planned(id, Restarted, ResetResult(db, id, now))
  }

  /** An arrival sees a record of its key if there is one; the identifier of a new record is fresh. */
  ghost predicate Sees(db: Db, op: Op, seen: string) {
    op.Ingest? ==>
      if HasKey(db, ArrivalKey(op.arrival)) then seen in db && KeyOf(db[seen]) == ArrivalKey(op.arrival)
      else op.freshId !in db
  }

  ghost predicate Enabled(s: World, act: Act) {
    match act
    case Read(c, op, seen) =>
      && c !in s.calls && Sees(s.store.db, op, seen)
      && (op.Ingest? ==> forall d | d in s.calls :: s.calls[d].write.id != op.freshId)
    case Finish(c) => c in s.calls
  }

  function Applied(store: State, w: Write): State {
    State(store.db[w.id := w.record], store.log + [LogEntry(w.id, w.effect)])
  }

  ghost function Next(maxRetries: int, s: World, act: Act): World
    requires Enabled(s, act)
  {
    match act
    case Read(c, op, seen) =>
      (match PlanOf(maxRetries, s.store.db, op, seen)
       case None => s
       case Some(w) => s.(calls := s.calls[c := InFlight(op, w)]))
    case Finish(c) => World(Applied(s.store, s.calls[c].write), s.calls - {c})
  }

  ghost predicate Run(maxRetries: int, ss: seq<World>, acts: seq<Act>) {
    && |ss| == |acts| + 1
    && ss[0] == INITIAL
    && forall i :: 0 <= i < |acts| ==> Enabled(ss[i], acts[i]) && ss[i + 1] == Next(maxRetries, ss[i], acts[i])
  }

  // ---------------------------------------------------------------- calls on one key one after another

  /** No two calls in flight are about the same natural key. */
  ghost predicate Exclusive(s: World) {
    forall c, d | c in s.calls && d in s.calls && c != d ::
      KeyOf(s.calls[c].write.record) != KeyOf(s.calls[d].write.record)
  }

  /** The call would still decide the same on the store as it is now. */
  ghost predicate UpToDate(maxRetries: int, db: Db, f: InFlight) {
    Sees(db, f.op, f.write.id) && PlanOf(maxRetries, db, f.op, f.write.id) == Some(f.write)
  }

  ghost predicate AllUpToDate(maxRetries: int, s: World) {
    && (forall c | c in s.calls :: UpToDate(maxRetries, s.store.db, s.calls[c]))
    && (forall c, d | c in s.calls && d in s.calls && c != d && s.calls[c].write.effect.Created? ::
          s.calls[c].write.id != s.calls[d].write.id)
  }

  /** A write is of the key of the record it replaces, or it is a creation under a new identifier. */
  lemma PlanTarget(maxRetries: int, db: Db, f: InFlight)
    requires UpToDate(maxRetries, db, f)
    ensures f.write.effect.Created? <==> f.write.id !in db
    ensures f.write.id in db ==> KeyOf(f.write.record) == KeyOf(db[f.write.id])
    ensures f.op.Ingest? ==> KeyOf(f.write.record) == ArrivalKey(f.op.arrival)
    ensures f.write.effect.Created? <==> f.op.Ingest? && !HasKey(db, ArrivalKey(f.op.arrival))
    ensures f.write.effect.Created? ==> f.write.id == f.op.freshId
  {
  }

  /** An up-to-date write is one atomic call. */
  lemma UpToDateIsStep(maxRetries: int, store: State, f: InFlight)
    requires UpToDate(maxRetries, store.db, f)
    ensures Step(maxRetries, store, f.op, Applied(store, f.write))
  {
    hide ReIngestOf, ReplayResult, ResolveResult, ResetResult, Creation, KeyOf;
  }

  /** A refused or absorbed call is one that leaves the store alone. */
  lemma RefusedIsStep(maxRetries: int, store: State, op: Op, seen: string)
    requires Sees(store.db, op, seen) && PlanOf(maxRetries, store.db, op, seen).None?
    ensures Step(maxRetries, store, op, store)
  {
    hide ReIngestOf, ReplayResult, ResolveResult, ResetResult, Creation, KeyOf;
    if op.Ingest? {
      assert seen in store.db && KeyOf(store.db[seen]) == ArrivalKey(op.arrival);
    }
  }

  /** Another key's write changes nothing the call has read. */
  lemma StaysUpToDate(maxRetries: int, db: Db, f: InFlight, other: InFlight)
    requires UpToDate(maxRetries, db, f) && UpToDate(maxRetries, db, other)
    requires KeyOf(f.write.record) != KeyOf(other.write.record)
    requires f.write.effect.Created? ==> f.write.id != other.write.id
    ensures UpToDate(maxRetries, db[other.write.id := other.write.record], f)
  {
    hide ReIngestOf, ReplayResult, ResolveResult, ResetResult, Creation, UpToDate;
    PlanTarget(maxRetries, db, f);
    PlanTarget(maxRetries, db, other);
    OtherKeysSame(db, other.write.id, other.write.record);
    SameReading(maxRetries, db, db[other.write.id := other.write.record], f);
  }

  lemma OtherKeysSame(db: Db, id: string, e: Record)
    requires id in db ==> KeyOf(e) == KeyOf(db[id])
    ensures forall k :: k != KeyOf(e) ==> (HasKey(db[id := e], k) <==> HasKey(db, k))
  {
    var db' := db[id := e];
    forall k | k != KeyOf(e)
      ensures HasKey(db', k) <==> HasKey(db, k)
    {
      if HasKey(db, k) {
        var x :| x in db && KeyOf(db[x]) == k;
        assert x in db' && KeyOf(db'[x]) == k;
      }
      if HasKey(db', k) {
        var x :| x in db' && KeyOf(db'[x]) == k;
        assert x in db && KeyOf(db[x]) == k;
      }
    }
  }

  lemma SameReading(maxRetries: int, db: Db, db': Db, f: InFlight)
    requires UpToDate(maxRetries, db, f)
    requires f.write.id in db <==> f.write.id in db'
    requires f.write.id in db ==> db'[f.write.id] == db[f.write.id]
    requires f.op.Ingest? ==> (HasKey(db, ArrivalKey(f.op.arrival)) <==> HasKey(db', ArrivalKey(f.op.arrival)))
    ensures UpToDate(maxRetries, db', f)
  {
    hide ReIngestOf, ReplayOf, ResolveOf, ResetOf, Creation, HasKey, KeyOf;
  }

  lemma ActKeepsUpToDate(maxRetries: int, s: World, act: Act)
    requires AllUpToDate(maxRetries, s) && Exclusive(s) && Enabled(s, act)
    ensures AllUpToDate(maxRetries, Next(maxRetries, s, act))
  {
    hide UpToDate, PlanOf, Sees, KeyOf;
    var s' := Next(maxRetries, s, act);
    match act
    case Read(c, op, seen) =>
      if s' != s {
        NewIsUpToDate(maxRetries, s, c, op, seen);
      }
    case Finish(c) =>
      forall d | d in s'.calls
        ensures UpToDate(maxRetries, s'.store.db, s'.calls[d])
      {
        StaysUpToDate(maxRetries, s.store.db, s.calls[d], s.calls[c]);
      }
  }

  lemma NewIsUpToDate(maxRetries: int, s: World, c: nat, op: Op, seen: string)
    requires AllUpToDate(maxRetries, s) && Enabled(s, Read(c, op, seen))
             && PlanOf(maxRetries, s.store.db, op, seen).Some?
    ensures var f := InFlight(op, PlanOf(maxRetries, s.store.db, op, seen).value);
            && UpToDate(maxRetries, s.store.db, f)
            && forall d | d in s.calls ::
                 f.write.effect.Created? || s.calls[d].write.effect.Created? ==> f.write.id != s.calls[d].write.id
  {
    hide ReIngestOf, ReplayResult, ResolveResult, ResetResult, Creation, HasKey, KeyOf;
    var f := InFlight(op, PlanOf(maxRetries, s.store.db, op, seen).value);
    assert UpToDate(maxRetries, s.store.db, f) by {
      PlannedTarget(maxRetries, s.store.db, op, seen);
    }
    PlanTarget(maxRetries, s.store.db, f);
    forall d | d in s.calls
      ensures f.write.effect.Created? || s.calls[d].write.effect.Created? ==> f.write.id != s.calls[d].write.id
    {
      PlanTarget(maxRetries, s.store.db, s.calls[d]);
    }
  }

  lemma PlannedTarget(maxRetries: int, db: Db, op: Op, seen: string)
    requires Sees(db, op, seen) && PlanOf(maxRetries, db, op, seen).Some?
    ensures var id := PlanOf(maxRetries, db, op, seen).value.id;
            Sees(db, op, id) && PlanOf(maxRetries, db, op, id) == PlanOf(maxRetries, db, op, seen)
  {
  }

  lemma {:induction false} ExclusiveIsUpToDate(maxRetries: int, ss: seq<World>, acts: seq<Act>, i: nat)
    requires Run(maxRetries, ss, acts) && i < |ss| && forall j | 0 <= j < i :: Exclusive(ss[j])
    ensures AllUpToDate(maxRetries, ss[i])
  {
    hide AllUpToDate, Next, Exclusive;
    if i == 0 {
      NoCalls(maxRetries);
    } else {
      ExclusiveIsUpToDate(maxRetries, ss, acts, i - 1);
      ActKeepsUpToDate(maxRetries, ss[i - 1], acts[i - 1]);
    }
  }

  lemma NoCalls(maxRetries: int)
    ensures AllUpToDate(maxRetries, INITIAL)
  {
  }

  /** Where calls on one key do not overlap, each call is one step of the atomic model: a refused one when it
      reads, any other when it writes; reading alone changes nothing. */
  lemma ExclusiveCallsAreAtomic(maxRetries: int, ss: seq<World>, acts: seq<Act>, i: nat)
    requires Run(maxRetries, ss, acts) && i < |acts| && forall j | 0 <= j <= i :: Exclusive(ss[j])
    ensures match acts[i]
            case Read(c, op, seen) =>
              && ss[i + 1].store == ss[i].store
              && (c !in ss[i + 1].calls ==> Step(maxRetries, ss[i].store, op, ss[i].store))
            case Finish(c) => Step(maxRetries, ss[i].store, ss[i].calls[c].op, ss[i + 1].store)
  {
    ExclusiveIsUpToDate(maxRetries, ss, acts, i);
    hide Step, Sees, PlanOf, UpToDate, Exclusive;
    match acts[i]
    case Read(c, op, seen) =>
      if c !in ss[i + 1].calls {
        RefusedIsStep(maxRetries, ss[i].store, op, seen);
      }
    case Finish(c) => UpToDateIsStep(maxRetries, ss[i].store, ss[i].calls[c]);
  }

  lemma EmptyStoreInv()
    ensures Inv(INITIAL.store)
  {
  }

  /** So the stores of such a run keep everything the atomic runs keep. */
  lemma {:induction false} ExclusiveRunKeepsInv(maxRetries: int, ss: seq<World>, acts: seq<Act>, i: nat)
    requires Run(maxRetries, ss, acts) && i < |ss| && forall j | 0 <= j < i :: Exclusive(ss[j])
    ensures Inv(ss[i].store)
  {
    hide Inv, Next, Step, Exclusive;
    if i == 0 {
      EmptyStoreInv();
    } else {
      ExclusiveRunKeepsInv(maxRetries, ss, acts, i - 1);
      ExclusiveCallsAreAtomic(maxRetries, ss, acts, i - 1);
      if acts[i - 1].Finish? {
        StepKeepsInv(maxRetries, ss[i - 1].store, ss[i - 1].calls[acts[i - 1].caller].op, ss[i].store);
      }
    }
  }

  lemma {:induction false} ExclusiveResolvedForever(maxRetries: int, ss: seq<World>, acts: seq<Act>, i: nat, j: nat,
          id: string)
    requires Run(maxRetries, ss, acts) && i <= j < |ss| && forall k | 0 <= k < j :: Exclusive(ss[k])
    requires id in ss[i].store.db && ss[i].store.db[id].status == Resolved
    ensures id in ss[j].store.db && ss[j].store.db[id] == ss[i].store.db[id]
    decreases j
  {
    hide Next, Step, Exclusive, Sees;
    if i < j {
      ExclusiveResolvedForever(maxRetries, ss, acts, i, j - 1, id);
      ExclusiveCallsAreAtomic(maxRetries, ss, acts, j - 1);
      if acts[j - 1].Finish? {
        var op := ss[j - 1].calls[acts[j - 1].caller].op;
        ResolvedStays(maxRetries, ss[j - 1].store, op, ss[j].store, id);
      }
    }
  }

  // ---------------------------------------------------------------- what any overlap keeps

  /** What never changes about a record. */
  ghost predicate SameOrigin(a: Record, b: Record) {
    && KeyOf(a) == KeyOf(b) && a.envelope == b.envelope && a.payload == b.payload && a.headers == b.headers
    && a.createdAt == b.createdAt && a.maxRetries == b.maxRetries
  }

  ghost predicate Sound(s: World) {
    && (forall id | id in s.store.db :: s.store.db[id].id == id && RecordInv(s.store.db[id]))
    && (forall c | c in s.calls :: SoundWrite(s.store.db, s.calls[c].write))
    && (forall c, d | c in s.calls && d in s.calls && c != d && s.calls[c].write.effect.Created? ::
          s.calls[c].write.id != s.calls[d].write.id)
  }

  ghost predicate SoundWrite(db: Db, w: Write) {
    && w.record.id == w.id && RecordInv(w.record)
    && (w.effect.Created? <==> w.id !in db)
    && (w.id in db ==> SameOrigin(w.record, db[w.id]))
  }

  lemma PlanIsSound(maxRetries: int, db: Db, op: Op, seen: string)
    requires (forall id | id in db :: db[id].id == id && RecordInv(db[id])) && Sees(db, op, seen)
    ensures var w := PlanOf(maxRetries, db, op, seen); w.Some? ==> SoundWrite(db, w.value)
  {
  }

  ghost predicate OriginsKept(before: Db, after: Db) {
    forall id | id in before :: id in after && SameOrigin(after[id], before[id])
  }

  lemma ReadKeepsSound(maxRetries: int, s: World, act: Act)
    requires Sound(s) && Enabled(s, act) && act.Read?
    ensures Sound(Next(maxRetries, s, act)) && Next(maxRetries, s, act).store == s.store
  {
    hide PlanOf, Sees, RecordInv, KeyOf, SameOrigin;
    PlanIsSound(maxRetries, s.store.db, act.op, act.seen);
    FreshWhenCreated(maxRetries, s.store.db, act.op, act.seen);
  }

  lemma WriteStaysSound(db: Db, w: Write, other: Write)
    requires SoundWrite(db, w) && SoundWrite(db, other)
    requires w.effect.Created? || other.effect.Created? ==> w.id != other.id
    ensures SoundWrite(db[other.id := other.record], w)
  {
    hide RecordInv, KeyOf;
  }

  lemma FinishKeepsSound(maxRetries: int, s: World, act: Act)
    requires Sound(s) && Enabled(s, act) && act.Finish?
    ensures Sound(Next(maxRetries, s, act)) && OriginsKept(s.store.db, Next(maxRetries, s, act).store.db)
  {
    hide RecordInv, SoundWrite, SameOrigin;
    var w, s' := s.calls[act.caller].write, Next(maxRetries, s, act);
    SoundWriteOnce(s.store.db, w);
    forall d | d in s'.calls
      ensures SoundWrite(s'.store.db, s'.calls[d].write)
    {
      WriteStaysSound(s.store.db, s.calls[d].write, w);
    }
    forall e: Record { SameAsItself(e); }
  }

  lemma SoundWriteOnce(db: Db, w: Write)
    requires SoundWrite(db, w)
    ensures w.record.id == w.id && RecordInv(w.record) && (w.id in db ==> SameOrigin(w.record, db[w.id]))
  {
  }

  lemma SameAsItself(e: Record)
    ensures SameOrigin(e, e)
  {
  }

  lemma ActKeepsSound(maxRetries: int, s: World, act: Act)
    requires Sound(s) && Enabled(s, act)
    ensures Sound(Next(maxRetries, s, act)) && OriginsKept(s.store.db, Next(maxRetries, s, act).store.db)
  {
    hide Sound, Next, Enabled, RecordInv, KeyOf;
    if act.Read? {
      ReadKeepsSound(maxRetries, s, act);
    } else {
      FinishKeepsSound(maxRetries, s, act);
    }
  }

  lemma FreshWhenCreated(maxRetries: int, db: Db, op: Op, seen: string)
    requires Sees(db, op, seen)
    ensures var w := PlanOf(maxRetries, db, op, seen);
            w.Some? ==> if w.value.effect.Created? then op.Ingest? && w.value.id == op.freshId else w.value.id in db
  {
  }

  /** However calls overlap: no record disappears or changes its origin, and each one keeps the poison
      threshold and the meaning of its resolution time. */
  lemma {:induction false} AnyRunIsSound(maxRetries: int, ss: seq<World>, acts: seq<Act>, i: nat, j: nat, id: string)
    requires Run(maxRetries, ss, acts) && i <= j < |ss|
    ensures Sound(ss[j])
    ensures id in ss[i].store.db ==>
              id in ss[j].store.db && SameOrigin(ss[j].store.db[id], ss[i].store.db[id])
                  && RecordInv(ss[j].store.db[id])
    decreases j
  {
    hide Next, SoundWrite, RecordInv, KeyOf;
    if j > 0 {
      AnyRunIsSound(maxRetries, ss, acts, if i < j then i else j - 1, j - 1, id);
      ActKeepsSound(maxRetries, ss[j - 1], acts[j - 1]);
    }
  }

  // ---------------------------------------------------------------- what overlapping calls lose

  /** Two first arrivals of one failure that both look before either writes. */
  lemma OverlappingArrivalsRepeatKey(maxRetries: int, a: Arrival)
    ensures exists ss: seq<World>, acts: seq<Act> ::
              Run(maxRetries, ss, acts) && |acts| == 4 && !UniqueKeys(ss[4].store.db)
  {
    hide Creation;
    var x, y := "dlq-1", "dlq-2";
    assert x[4] != y[4];
    var v, w := Write(x, Creation(maxRetries, a, x, 0), Created), Write(y, Creation(maxRetries, a, y, 0), Created);
    var f, g := InFlight(Ingest(a, x, 0), v), InFlight(Ingest(a, y, 0), w);
    var acts := [Read(0, f.op, x), Read(1, g.op, y), Finish(0), Finish(1)];
    var s1 := World(INITIAL.store, map[0 := f]);
    var s2 := World(INITIAL.store, map[0 := f, 1 := g]);
    var s3 := World(Applied(INITIAL.store, v), map[1 := g]);
    var s4 := World(Applied(s3.store, w), map[]);
    var ss := [INITIAL, s1, s2, s3, s4];
    assert Next(maxRetries, INITIAL, acts[0]) == s1;
    assert Next(maxRetries, s1, acts[1]) == s2;
    assert s2.calls - {0} == s3.calls && s3.calls - {1} == s4.calls;
    assert Run(maxRetries, ss, acts);
    CreationKey(maxRetries, a, x, 0);
    CreationKey(maxRetries, a, y, 0);
    assert x in s4.store.db && y in s4.store.db && KeyOf(s4.store.db[x]) == KeyOf(s4.store.db[y]);
  }

  lemma CreationKey(maxRetries: int, a: Arrival, id: string, now: Time)
    ensures KeyOf(Creation(maxRetries, a, id, now)) == ArrivalKey(a)
            && Creation(maxRetries, a, id, now).status == Pending
  {
  }

  lemma PendingAccepts(e: Record)
    requires e.status == Pending
    ensures ReplayOf(e, 1).Ok? && ReplayOf(e, 1).value.status == Replayed
    ensures ResolveOf(e, "operator", 2).Ok? && ResolveOf(e, "operator", 2).value.status == Resolved
  {
  }

  /** A replay that read the record before it was resolved, and writes after. */
  lemma OverlappingReplayUndoesResolution(maxRetries: int, a: Arrival)
    ensures exists ss: seq<World>, acts: seq<Act> ::
              && Run(maxRetries, ss, acts) && |acts| == 6
              && "dlq-1" in ss[5].store.db && ss[5].store.db["dlq-1"].status == Resolved
              && "dlq-1" in ss[6].store.db && ss[6].store.db["dlq-1"].status == Replayed
  {
    var x := "dlq-1";
    var e := Creation(maxRetries, a, x, 0);
    CreationKey(maxRetries, a, x, 0);
    PendingAccepts(e);
    hide Creation, KeyOf, ReplayOf, ResolveOf;
    var u := Write(x, e, Created);
    var v, w := Write(x, ReplayOf(e, 1).value, Sent), Write(x, ResolveOf(e, "operator", 2).value, Closed);
    var c, f, g := InFlight(Ingest(a, x, 0), u), InFlight(Replay(x, true, 1), v),
        InFlight(Resolve(x, "operator", 2), w);
    var acts := [Read(0, c.op, x), Finish(0), Read(1, f.op, x), Read(2, g.op, x), Finish(2), Finish(1)];
    var s1 := World(INITIAL.store, map[0 := c]);
    var s2 := World(Applied(INITIAL.store, u), map[]);
    var s3 := World(s2.store, map[1 := f]);
    var s4 := World(s2.store, map[1 := f, 2 := g]);
    var s5 := World(Applied(s4.store, w), map[1 := f]);
    var s6 := World(Applied(s5.store, v), map[]);
    var ss := [INITIAL, s1, s2, s3, s4, s5, s6];
    assert Next(maxRetries, INITIAL, acts[0]) == s1;
    assert s1.calls - {0} == s2.calls && s4.calls - {2} == s5.calls && s5.calls - {1} == s6.calls;
    assert Next(maxRetries, s2, acts[2]) == s3;
    assert Next(maxRetries, s3, acts[3]) == s4;
    assert Run(maxRetries, ss, acts);
  }
}
