/** The idempotent write path of the ratings service.

    `RatingService.SubmitRating` is the code of one call. The state machine below it lets any
    number of calls interleave between their effects: the atomic check-and-record, the save and
    the publish. A caller's program counter says how far it is, and stays behind as its outcome. */
module WritePath {
  import opened Wrappers
  import opened Idempotency
  import opened Strings

  datatype Request = Request(productId: string, reviewer: string, stars: int, idempotencyKey: string)
  datatype Rating = Rating(id: string, productId: string, reviewer: string, stars: int)
  datatype RatingSubmitted = RatingSubmitted(id: string, productId: string, reviewer: string, stars: int,
      idempotencyKey: string)

  datatype SubmitError = InvalidRating | AlreadyProcessed | PublishFailed

  predicate IsValid(r: Request) {
    r.productId != "" && r.reviewer != "" && 1 <= r.stars <= 5
  }

  function FieldsOf(r: Request): seq<string> {
    [r.productId, r.reviewer, Itoa(r.stars)]
  }

  function RequestKey(hash: string -> string, r: Request): string {
    KeyFor(hash, r.idempotencyKey, FieldsOf(r))
  }

  function RatingOf(id: string, r: Request): Rating {
    Rating(id, r.productId, r.reviewer, r.stars)
  }

  function EventOf(hash: string -> string, id: string, r: Request): RatingSubmitted {
    RatingSubmitted(id, r.productId, r.reviewer, r.stars, RequestKey(hash, r))
  }

  // ---------------------------------------------------------------- one call

  class RatingRepository {
    var ratings: seq<Rating>

    constructor ()
      ensures ratings == []
    {
      ratings := [];
    }

    method Save(rating: Rating)
      modifies this
      ensures ratings == old(ratings) + [rating]
    {
      ratings := ratings + [rating];
    }
  }

  /** The broker client; whether a publish succeeds is up to the broker. */
  class Publisher {
    ghost var events: seq<RatingSubmitted>

    constructor ()
      ensures events == []
    {
      events := [];
    }

    method PublishRatingSubmitted(e: RatingSubmitted) returns (accepted: bool)
      modifies this
      ensures events == old(events) + if accepted then [e] else []
    {
      accepted := *;
      if accepted {
        events := events + [e];
      }
    }
  }

  datatype Effects = Effects(keys: set<string>, ratings: seq<Rating>, events: seq<RatingSubmitted>)

  /** What one whole call does when nothing runs beside it. */
  function SubmitAlone(hash: string -> string, before: Effects, r: Request, id: string, accepted: bool)
    : (Effects, Result<Rating, SubmitError>)
  {
    var key := RequestKey(hash, r);
    if !IsValid(r) then (before, Err(InvalidRating))
    else
      var duplicate := key in before.keys;
      var after := Effects(before.keys + {key},
                           before.ratings + (if duplicate then [] else [RatingOf(id, r)]),
                           before.events + (if accepted then [EventOf(hash, id, r)] else []));
      (after, if !accepted then Err(PublishFailed) else if duplicate then Err(AlreadyProcessed)
          else Ok(RatingOf(id, r)))
  }

  class RatingService {
    const repo: RatingRepository
    const idempotency: MemoryStore
    const publisher: Publisher
    const hash: string -> string

    constructor (repo: RatingRepository, idempotency: MemoryStore, publisher: Publisher, hash: string -> string)
      ensures this.repo == repo && this.idempotency == idempotency && this.publisher == publisher && this.hash == hash
    {
      this.repo, this.idempotency, this.publisher, this.hash := repo, idempotency, publisher, hash;
    }

    ghost function State(): Effects
      reads repo, idempotency, publisher
    {
      Effects(idempotency.keys, repo.ratings, publisher.events)
    }

    /** Publishes on a duplicate too, so that a retry after a failed publish completes. */
    method SubmitRating(r: Request, id: string) returns (result: Result<Rating, SubmitError>)
      modifies repo, idempotency, publisher
      ensures (State(), result) == SubmitAlone(hash, old(State()), r, id, result != Err(PublishFailed))
      ensures var before, after := old(State()), State();
              var key := if r.idempotencyKey != "" then r.idempotencyKey
                         else hash(r.productId + [SEPARATOR] + r.reviewer + [SEPARATOR] + Itoa(r.stars) + [SEPARATOR]);
              var rating := Rating(id, r.productId, r.reviewer, r.stars);
              var event := RatingSubmitted(id, r.productId, r.reviewer, r.stars, key);
              if r.productId == "" || r.reviewer == "" || r.stars < 1 || r.stars > 5 then
                after == before && result == Err(InvalidRating)
              else
                && after.keys == before.keys + {key}
                && after.ratings == (if key in before.keys then before.ratings else before.ratings + [rating])
                && match result
                   case Ok(saved) => key !in before.keys && saved == rating && after.events == before.events + [event]
                   case Err(AlreadyProcessed) => key in before.keys && after.events == before.events + [event]
                   case Err(PublishFailed) => after.events == before.events
                   case Err(InvalidRating) => false
    {
      EncodeTriple(r.productId, r.reviewer, Itoa(r.stars));
      hide Encode, Itoa;
      var key := Resolve(hash, r.idempotencyKey, [r.productId, r.reviewer, Itoa(r.stars)]);
      if r.productId == "" || r.reviewer == "" || r.stars < 1 || r.stars > 5 {
        return Err(InvalidRating);
      }
      var rating := Rating(id, r.productId, r.reviewer, r.stars);
      var alreadyProcessed := idempotency.CheckAndRecord(key);
      if !alreadyProcessed {
        repo.Save(rating);
      }
      var accepted := publisher.PublishRatingSubmitted(
        RatingSubmitted(rating.id, rating.productId, rating.reviewer, rating.stars, key));
      assert old(repo.ratings) + [] == old(repo.ratings) && old(publisher.events) + [] == old(publisher.events);
      if !accepted {
        return Err(PublishFailed);
      }
      if alreadyProcessed {
        return Err(AlreadyProcessed);
      }
      return Ok(rating);
    }
  }

  // ---------------------------------------------------------------- interleaved calls

  datatype Pc =
    | Checking                       // validated, about to check and record the key
    | Saving                         // recorded the key, about to save
    | Publishing(duplicate: bool)    // about to publish
    | Rejected                       // validation failed
    | SaveFailed
    | PublishRefused(duplicate: bool)
    | Succeeded(duplicate: bool)     // a duplicate reports "already processed"

  datatype Caller = Caller(request: Request, ratingId: string, pc: Pc)
  datatype Row = Row(caller: nat, rating: Rating)
  datatype Publication = Publication(caller: nat, event: RatingSubmitted)

  datatype State = State(keys: set<string>, rows: seq<Row>, published: seq<Publication>, callers: map<nat, Caller>)

  datatype Action =
    | Arrive(caller: nat, request: Request, ratingId: string)
    | Check(caller: nat)
    | Save(caller: nat, saved: bool)
    | Publish(caller: nat, accepted: bool)

  function CallerKey(hash: string -> string, c: Caller): string {
    RequestKey(hash, c.request)
  }

  predicate FreshRatingId(s: State, id: string) {
    forall c :: c in s.callers ==> s.callers[c].ratingId != id
  }

  predicate Enabled(s: State, a: Action) {
    match a
    case Arrive(c, _, id) => c !in s.callers && FreshRatingId(s, id)
    case Check(c) => c in s.callers && s.callers[c].pc == Checking
    case Save(c, _) => c in s.callers && s.callers[c].pc == Saving
    case Publish(c, _) => c in s.callers && s.callers[c].pc.Publishing?
  }

  function At(s: State, c: nat, pc: Pc): State
    requires c in s.callers
  {
    s.(callers := s.callers[c := s.callers[c].(pc := pc)])
  }

  /** One effect of one caller. */
  function Next(hash: string -> string, s: State, a: Action): State
    requires Enabled(s, a)
  {
    match a
    case Arrive(c, r, id) => s.(callers := s.callers[c := Caller(r, id, if IsValid(r) then Checking else Rejected)])
    case Check(c) =>
      var key := CallerKey(hash, s.callers[c]);
      if key in s.keys then At(s, c, Publishing(true)) else At(s, c, Saving).(keys := s.keys + {key})
    case Save(c, saved) =>
      var caller := s.callers[c];
      if saved then At(s, c, Publishing(false)).(rows := s.rows + [Row(c, RatingOf(caller.ratingId, caller.request))])
      else At(s, c, SaveFailed)
    case Publish(c, accepted) =>
      var caller := s.callers[c];
      if accepted then At(s, c, Succeeded(caller.pc.duplicate))
                         .(published := s.published + [Publication(c, EventOf(hash, caller.ratingId, caller.request))])
      else At(s, c, PublishRefused(caller.pc.duplicate))
  }

  const INITIAL: State := State({}, [], [], map[])

  ghost predicate Run(hash: string -> string, ss: seq<State>, actions: seq<Action>) {
    && |ss| == |actions| + 1
    && ss[0] == INITIAL
    && forall i :: 0 <= i < |actions| ==> Enabled(ss[i], actions[i]) && ss[i + 1] == Next(hash, ss[i], actions[i])
  }

  /** The caller has passed the atomic check. */
  predicate Decided(pc: Pc) {
    !pc.Checking? && !pc.Rejected?
  }

  /** The caller was told that its key was not processed before. */
  predicate Won(pc: Pc) {
    pc.Saving? || pc.SaveFailed? || ((pc.Publishing? || pc.PublishRefused? || pc.Succeeded?) && !pc.duplicate)
  }

  /** The caller's row is in the table. */
  predicate Stored(pc: Pc) {
    Won(pc) && !pc.Saving? && !pc.SaveFailed?
  }

  ghost predicate Winner(hash: string -> string, s: State, key: string, c: nat) {
    c in s.callers && Won(s.callers[c].pc) && CallerKey(hash, s.callers[c]) == key
  }

  ghost predicate HasRow(s: State, c: nat) {
    exists i :: 0 <= i < |s.rows| && s.rows[i].caller == c
  }

  ghost predicate HasEvent(s: State, c: nat) {
    exists i :: 0 <= i < |s.published| && s.published[i].caller == c
  }

  /** Recorded keys and winning callers are in bijection. */
  ghost predicate KeysInv(hash: string -> string, s: State) {
    && (forall c :: c in s.callers && Decided(s.callers[c].pc) ==> CallerKey(hash, s.callers[c]) in s.keys)
    && (forall key :: key in s.keys ==> exists c :: Winner(hash, s, key, c))
    && (forall key, c, d :: Winner(hash, s, key, c) && Winner(hash, s, key, d) ==> c == d)
  }

  /** Only valid requests get past validation, and rating identifiers are distinct. */
  ghost predicate CallersInv(s: State) {
    && (forall c :: c in s.callers && !s.callers[c].pc.Rejected? ==> IsValid(s.callers[c].request))
    && (forall c, d :: c in s.callers && d in s.callers && s.callers[c].ratingId == s.callers[d].ratingId ==> c == d)
  }

  ghost predicate IsRowOf(s: State, row: Row) {
    && row.caller in s.callers && Stored(s.callers[row.caller].pc)
    && row.rating == RatingOf(s.callers[row.caller].ratingId, s.callers[row.caller].request)
  }

  ghost predicate IsPublicationOf(hash: string -> string, s: State, p: Publication) {
    && p.caller in s.callers && s.callers[p.caller].pc.Succeeded?
    && p.event == EventOf(hash, s.callers[p.caller].ratingId, s.callers[p.caller].request)
  }

  /** Rows and callers past a successful save are in bijection. */
  ghost predicate RowsInv(s: State) {
    && (forall i :: 0 <= i < |s.rows| ==> IsRowOf(s, s.rows[i]))
    && (forall i, j :: 0 <= i < j < |s.rows| ==> s.rows[i].caller != s.rows[j].caller)
    && (forall c :: c in s.callers && Stored(s.callers[c].pc) ==> HasRow(s, c))
  }

  /** Events and successful callers are in bijection. */
  ghost predicate EventsInv(hash: string -> string, s: State) {
    && (forall i :: 0 <= i < |s.published| ==> IsPublicationOf(hash, s, s.published[i]))
    && (forall i, j :: 0 <= i < j < |s.published| ==> s.published[i].caller != s.published[j].caller)
    && (forall c :: c in s.callers && s.callers[c].pc.Succeeded? ==> HasEvent(s, c))
  }

  ghost predicate Inv(hash: string -> string, s: State) {
    KeysInv(hash, s) && CallersInv(s) && RowsInv(s) && EventsInv(hash, s)
  }

  lemma CallersStep(hash: string -> string, s: State, a: Action)
    requires CallersInv(s) && Enabled(s, a)
    ensures CallersInv(Next(hash, s, a))
  {
  }

  /** Only a caller that just passed the check becomes a winner, and then its key was unrecorded. */
  lemma WinnersStep(hash: string -> string, s: State, a: Action, key: string, c: nat)
    requires Enabled(s, a)
    ensures Winner(hash, s, key, c) ==> Winner(hash, Next(hash, s, a), key, c)
    ensures Winner(hash, Next(hash, s, a), key, c) && !Winner(hash, s, key, c) ==>
              a == Check(c) && key !in s.keys && key in Next(hash, s, a).keys
  {
  }

  lemma NewKeyWon(hash: string -> string, s: State, a: Action, key: string)
    requires Enabled(s, a) && key in Next(hash, s, a).keys && key !in s.keys
    ensures Winner(hash, Next(hash, s, a), key, a.caller)
  {
  }

  lemma DecidedStep(hash: string -> string, s: State, a: Action, c: nat)
    requires KeysInv(hash, s) && Enabled(s, a)
    ensures var s' := Next(hash, s, a);
            c in s'.callers && Decided(s'.callers[c].pc) ==> CallerKey(hash, s'.callers[c]) in s'.keys
  {
    hide Winner;
  }

  lemma KeysStep(hash: string -> string, s: State, a: Action)
    requires KeysInv(hash, s) && Enabled(s, a)
    ensures KeysInv(hash, Next(hash, s, a))
  {
    hide Next, Enabled, Winner, CallerKey, Decided;
    var s' := Next(hash, s, a);
    forall c { DecidedStep(hash, s, a, c); }
    forall key | key in s'.keys
      ensures exists c :: Winner(hash, s', key, c)
    {
      if key in s.keys {
        var c :| Winner(hash, s, key, c);
        WinnersStep(hash, s, a, key, c);
      } else {
        NewKeyWon(hash, s, a, key);
      }
    }
    forall key, c, d | Winner(hash, s', key, c) && Winner(hash, s', key, d)
      ensures c == d
    {
      WinnersStep(hash, s, a, key, c);
      WinnersStep(hash, s, a, key, d);
      WinnerDecided(hash, s, key, c);
      WinnerDecided(hash, s, key, d);
    }
  }

  lemma WinnerDecided(hash: string -> string, s: State, key: string, c: nat)
    requires KeysInv(hash, s)
    ensures Winner(hash, s, key, c) ==> key in s.keys
  {
  }

  predicate Busy(pc: Pc) {
    pc.Checking? || pc.Saving? || pc.Publishing?
  }

  /** An action moves its own caller and no other. */
  lemma CallersMove(hash: string -> string, s: State, a: Action)
    requires Enabled(s, a)
    ensures var s' := Next(hash, s, a);
            && s'.callers.Keys == s.callers.Keys + {a.caller}
            && (forall c | c in s.callers && c != a.caller :: s'.callers[c] == s.callers[c])
            && (if a.Arrive? then
                  s'.callers[a.caller]
                      == Caller(a.request, a.ratingId, if IsValid(a.request) then Checking else Rejected)
                else
                  && a.caller in s.callers && s'.callers[a.caller].request == s.callers[a.caller].request
                  && Busy(s.callers[a.caller].pc) && !s'.callers[a.caller].pc.Checking?
                      && !s'.callers[a.caller].pc.Rejected?)
  {
  }

  /** What an action can do to one caller. */
  lemma CallerStep(hash: string -> string, s: State, a: Action, c: nat)
    requires Enabled(s, a)
    ensures var s' := Next(hash, s, a);
            && (c in s.callers ==> c in s'.callers && s'.callers[c].request == s.callers[c].request
                                   && s'.callers[c].ratingId == s.callers[c].ratingId
                                   && (Stored(s.callers[c].pc) ==> Stored(s'.callers[c].pc))
                                   && (s.callers[c].pc.Succeeded? ==> s'.callers[c] == s.callers[c]))
            && (c in s'.callers && Stored(s'.callers[c].pc) ==>
                a == Save(c, true)
                || (c in s.callers && Stored(s.callers[c].pc)))
            && (c in s'.callers && s'.callers[c].pc.Succeeded? ==>
                a == Publish(c, true)
                || (c in s.callers && s.callers[c].pc.Succeeded?))
  {
  }

  /** What an action can do to the table and the topic. */
  lemma TablesStep(hash: string -> string, s: State, a: Action)
    requires Enabled(s, a)
    ensures var s' := Next(hash, s, a);
            && (if a.Save? && a.saved then
                  |s'.rows| == |s.rows| + 1 && s'.rows[..|s.rows|] == s.rows && s'.rows[|s.rows|].caller == a.caller
                  && !Stored(s.callers[a.caller].pc) && IsRowOf(s', s'.rows[|s.rows|])
                else s'.rows == s.rows)
            && (if a.Publish? && a.accepted then
                  |s'.published| == |s.published| + 1 && s'.published[..|s.published|] == s.published
                  && s'.published[|s.published|].caller == a.caller
                  && !s.callers[a.caller].pc.Succeeded? && IsPublicationOf(hash, s', s'.published[|s.published|])
                else s'.published == s.published)
  {
  }

  lemma RowPersists(hash: string -> string, s: State, a: Action, row: Row)
    requires Enabled(s, a) && IsRowOf(s, row)
    ensures IsRowOf(Next(hash, s, a), row)
  {
    hide Next, Stored, Enabled;
    CallerStep(hash, s, a, row.caller);
  }

  lemma RowsStep(hash: string -> string, s: State, a: Action)
    requires RowsInv(s) && Enabled(s, a)
    ensures RowsInv(Next(hash, s, a))
  {
    hide Next, Stored, Enabled;
    var s' := Next(hash, s, a);
    TablesStep(hash, s, a);
    forall i | 0 <= i < |s.rows|
      ensures s'.rows[i] == s.rows[i] && IsRowOf(s', s.rows[i])
    {
      assert s'.rows[..|s.rows|][i] == s.rows[i];
      RowPersists(hash, s, a, s.rows[i]);
    }
    forall c | c in s'.callers && Stored(s'.callers[c].pc)
      ensures HasRow(s', c)
    {
      CallerStep(hash, s, a, c);
      if a == Save(c, true) {
        assert s'.rows[|s.rows|].caller == c;
      } else {
        var i :| 0 <= i < |s.rows| && s.rows[i].caller == c;
        assert s'.rows[i].caller == c;
      }
    }
  }

  lemma PublicationPersists(hash: string -> string, s: State, a: Action, p: Publication)
    requires Enabled(s, a) && IsPublicationOf(hash, s, p)
    ensures IsPublicationOf(hash, Next(hash, s, a), p)
  {
    hide Next, Stored, Enabled, EventOf;
    CallerStep(hash, s, a, p.caller);
  }

  lemma EventsStep(hash: string -> string, s: State, a: Action)
    requires EventsInv(hash, s) && Enabled(s, a)
    ensures EventsInv(hash, Next(hash, s, a))
  {
    hide Next, Stored, EventOf, Enabled;
    var s' := Next(hash, s, a);
    TablesStep(hash, s, a);
    forall i | 0 <= i < |s.published|
      ensures s'.published[i] == s.published[i] && IsPublicationOf(hash, s', s.published[i])
    {
      assert s'.published[..|s.published|][i] == s.published[i];
      PublicationPersists(hash, s, a, s.published[i]);
    }
    forall c | c in s'.callers && s'.callers[c].pc.Succeeded?
      ensures HasEvent(s', c)
    {
      CallerStep(hash, s, a, c);
      if a == Publish(c, true) {
        assert s'.published[|s.published|].caller == c;
      } else {
        var i :| 0 <= i < |s.published| && s.published[i].caller == c;
        assert s'.published[i].caller == c;
      }
    }
  }

  lemma StepKeepsInv(hash: string -> string, s: State, a: Action)
    requires Inv(hash, s) && Enabled(s, a)
    ensures Inv(hash, Next(hash, s, a))
  {
    hide KeysInv, CallersInv, RowsInv, EventsInv, Next, Enabled;
    KeysStep(hash, s, a);
    CallersStep(hash, s, a);
    RowsStep(hash, s, a);
    EventsStep(hash, s, a);
  }

  lemma {:induction false} RunKeepsInv(hash: string -> string, ss: seq<State>, actions: seq<Action>, i: nat)
    requires Run(hash, ss, actions) && i < |ss|
    ensures Inv(hash, ss[i])
  {
    if i > 0 {
      RunKeepsInv(hash, ss, actions, i - 1);
      StepKeepsInv(hash, ss[i - 1], actions[i - 1]);
    }
  }

  // ---------------------------------------------------------------- what every interleaving promises

  function RowKey(hash: string -> string, s: State, i: nat): string
    requires i < |s.rows| && s.rows[i].caller in s.callers
  {
    CallerKey(hash, s.callers[s.rows[i].caller])
  }

  lemma RowsBelongToWinners(hash: string -> string, s: State, i: nat)
    requires RowsInv(s) && i < |s.rows|
    ensures s.rows[i].caller in s.callers && Winner(hash, s, RowKey(hash, s, i), s.rows[i].caller)
  {
  }

  lemma RowKeysDistinct(hash: string -> string, s: State, i: nat, j: nat)
    requires KeysInv(hash, s) && RowsInv(s) && i < j < |s.rows|
    ensures s.rows[i].caller in s.callers && s.rows[j].caller in s.callers && RowKey(hash, s, i) != RowKey(hash, s, j)
  {
    RowsBelongToWinners(hash, s, i);
    RowsBelongToWinners(hash, s, j);
  }

  /** For each recorded key exactly one caller saw "not processed", and no two rows share a key. */
  lemma ExactlyOneWinnerPerKey(hash: string -> string, ss: seq<State>, actions: seq<Action>, n: nat)
    requires Run(hash, ss, actions) && n < |ss|
    ensures var s := ss[n];
            && (forall key :: key in s.keys <==> exists c :: Winner(hash, s, key, c))
            && (forall key, c, d :: Winner(hash, s, key, c) && Winner(hash, s, key, d) ==> c == d)
            && (forall i :: 0 <= i < |s.rows| ==> s.rows[i].caller in s.callers)
            && (forall i, j :: 0 <= i < j < |s.rows| ==> RowKey(hash, s, i) != RowKey(hash, s, j))
  {
    RunKeepsInv(hash, ss, actions, n);
    var s := ss[n];
    forall key, c | Winner(hash, s, key, c)
      ensures key in s.keys
    {
      WinnerDecided(hash, s, key, c);
    }
    forall i | 0 <= i < |s.rows|
      ensures s.rows[i].caller in s.callers
    {
      RowsBelongToWinners(hash, s, i);
    }
    forall i, j | 0 <= i < j < |s.rows|
      ensures RowKey(hash, s, i) != RowKey(hash, s, j)
    {
      RowKeysDistinct(hash, s, i, j);
    }
  }

  ghost predicate Quiescent(s: State) {
    forall c :: c in s.callers ==> !s.callers[c].pc.Checking? && !s.callers[c].pc.Saving?
                                   && !s.callers[c].pc.Publishing?
  }

  ghost predicate NoSaveFailed(s: State) {
    forall c :: c in s.callers ==> !s.callers[c].pc.SaveFailed?
  }

  ghost predicate RowFor(hash: string -> string, s: State, key: string) {
    exists i :: 0 <= i < |s.rows| && s.rows[i].caller in s.callers && RowKey(hash, s, i) == key
  }

  /** The call that recorded the key failed to save its row. */
  ghost predicate SaveLost(hash: string -> string, s: State, key: string) {
    exists c :: Winner(hash, s, key, c) && s.callers[c].pc.SaveFailed?
  }

  /** The call that recorded the key is about to save its row. */
  ghost predicate SavePending(hash: string -> string, s: State, key: string) {
    exists c :: Winner(hash, s, key, c) && s.callers[c].pc.Saving?
  }

  /** A recorded key has its row exactly when the save of the call that recorded it is neither pending nor failed. */
  lemma RecordedKeyHasRowIff(hash: string -> string, s: State, key: string)
    requires KeysInv(hash, s) && RowsInv(s) && key in s.keys
    ensures RowFor(hash, s, key) <==> !SavePending(hash, s, key) && !SaveLost(hash, s, key)
  {
    if RowFor(hash, s, key) {
      var i :| 0 <= i < |s.rows| && s.rows[i].caller in s.callers && RowKey(hash, s, i) == key;
      RowsBelongToWinners(hash, s, i);
      forall c | Winner(hash, s, key, c)
        ensures c == s.rows[i].caller && Stored(s.callers[c].pc)
      {
        assert IsRowOf(s, s.rows[i]);
      }
    }
    var c :| Winner(hash, s, key, c);
    if Stored(s.callers[c].pc) {
      StoredWinnerHasRow(hash, s, key, c);
    }
  }

  lemma StoredWinnerHasRow(hash: string -> string, s: State, key: string, c: nat)
    requires RowsInv(s) && Winner(hash, s, key, c) && Stored(s.callers[c].pc)
    ensures RowFor(hash, s, key)
  {
    assert HasRow(s, c);
    var i :| 0 <= i < |s.rows| && s.rows[i].caller == c;
    assert RowKey(hash, s, i) == key;
  }

  /** With no call in progress, a recorded key lacks its row exactly when its own save failed. */
  lemma RowMissingIffSaveFailed(hash: string -> string, ss: seq<State>, actions: seq<Action>, n: nat, key: string)
    requires Run(hash, ss, actions) && n < |ss| && Quiescent(ss[n]) && key in ss[n].keys
    ensures RowFor(hash, ss[n], key) <==> !SaveLost(hash, ss[n], key)
  {
    RunKeepsInv(hash, ss, actions, n);
    RecordedKeyHasRowIff(hash, ss[n], key);
  }

  /** With no call in progress, saved rows are in bijection with the recorded keys whose save did not
      fail; they are in bijection with all recorded keys exactly when no save failed. */
  lemma KeysAndRowsInBijection(hash: string -> string, ss: seq<State>, actions: seq<Action>, n: nat)
    requires Run(hash, ss, actions) && n < |ss| && Quiescent(ss[n])
    ensures var s := ss[n];
            && (forall i :: 0 <= i < |s.rows| ==>
                  s.rows[i].caller in s.callers && RowKey(hash, s, i) in s.keys
                      && !SaveLost(hash, s, RowKey(hash, s, i)))
            && (forall key :: key in s.keys && !SaveLost(hash, s, key) ==> RowFor(hash, s, key))
            && (forall i, j :: 0 <= i < j < |s.rows| ==> RowKey(hash, s, i) != RowKey(hash, s, j))
    ensures (forall key :: key in ss[n].keys ==> RowFor(hash, ss[n], key)) <==> NoSaveFailed(ss[n])
  {
    ExactlyOneWinnerPerKey(hash, ss, actions, n);
    RunKeepsInv(hash, ss, actions, n);
    var s := ss[n];
    forall i | 0 <= i < |s.rows|
      ensures RowKey(hash, s, i) in s.keys && RowFor(hash, s, RowKey(hash, s, i))
    {
      RowsBelongToWinners(hash, s, i);
    }
    forall key | key in s.keys
      ensures RowFor(hash, s, key) <==> !SaveLost(hash, s, key)
    {
      RowMissingIffSaveFailed(hash, ss, actions, n, key);
    }
    NoKeyLostIff(hash, s);
  }

  lemma NoKeyLostIff(hash: string -> string, s: State)
    requires KeysInv(hash, s)
    ensures (forall key :: key in s.keys ==> !SaveLost(hash, s, key)) <==> NoSaveFailed(s)
  {
    forall c | c in s.callers && s.callers[c].pc.SaveFailed?
      ensures SaveLost(hash, s, CallerKey(hash, s.callers[c])) && CallerKey(hash, s.callers[c]) in s.keys
    {
      assert Winner(hash, s, CallerKey(hash, s.callers[c]), c);
    }
  }

  // ---------------------------------------------------------------- a failed save is for good

  lemma SaveLostStays(hash: string -> string, s: State, a: Action, key: string)
    requires Enabled(s, a) && SaveLost(hash, s, key)
    ensures SaveLost(hash, Next(hash, s, a), key)
  {
    var c :| Winner(hash, s, key, c) && s.callers[c].pc.SaveFailed?;
    WinnersStep(hash, s, a, key, c);
    SaveFailedStays(hash, s, a, c);
  }

  lemma SaveFailedStays(hash: string -> string, s: State, a: Action, c: nat)
    requires Enabled(s, a) && c in s.callers && s.callers[c].pc.SaveFailed?
    ensures c in Next(hash, s, a).callers && Next(hash, s, a).callers[c] == s.callers[c]
  {
  }

  /** While a key's save is lost there is no row for it, and every success on it is a deduplicated one. */
  lemma LostKeyHasNoRow(hash: string -> string, s: State, key: string)
    requires KeysInv(hash, s) && RowsInv(s) && SaveLost(hash, s, key)
    ensures key in s.keys && !RowFor(hash, s, key)
    ensures forall c | c in s.callers && CallerKey(hash, s.callers[c]) == key
            && s.callers[c].pc.Succeeded? :: s.callers[c].pc.duplicate
  {
    var c :| Winner(hash, s, key, c) && s.callers[c].pc.SaveFailed?;
    WinnerDecided(hash, s, key, c);
    RecordedKeyHasRowIff(hash, s, key);
    forall d | d in s.callers && CallerKey(hash, s.callers[d]) == key && s.callers[d].pc.Succeeded?
      ensures s.callers[d].pc.duplicate
    {
      assert Winner(hash, s, key, d) ==> d == c;
    }
  }

  /** The comment promises retry safety. Once the save of a key failed, no retry ever saves its row: every
      later call on the key reports it as already processed, or fails. */
  lemma {:induction false} FailedSaveIsForGood(hash: string -> string, ss: seq<State>, actions: seq<Action>, i: nat,
          j: nat, key: string)
    requires Run(hash, ss, actions) && i <= j < |ss| && SaveLost(hash, ss[i], key)
    ensures SaveLost(hash, ss[j], key) && !RowFor(hash, ss[j], key)
    ensures forall c | c in ss[j].callers && CallerKey(hash, ss[j].callers[c]) == key
            && ss[j].callers[c].pc.Succeeded? ::
              ss[j].callers[c].pc.duplicate
    decreases j
  {
    if i < j {
      FailedSaveIsForGood(hash, ss, actions, i, j - 1, key);
      SaveLostStays(hash, ss[j - 1], actions[j - 1], key);
    }
    RunKeepsInv(hash, ss, actions, j);
    LostKeyHasNoRow(hash, ss[j], key);
  }

  /** Such a run: the first call records the key and fails to save, the retry publishes and reports
      "already processed", and the rating is nowhere. */
  lemma RetryAfterFailedSave(hash: string -> string, r: Request, id: string, other: string)
    requires IsValid(r) && id != other
    ensures exists ss: seq<State>, actions: seq<Action> ::
              && Run(hash, ss, actions) && |ss| == 7 && Quiescent(ss[6])
              && |ss[6].published| == 1 && ss[6].rows == [] && SaveLost(hash, ss[6], RequestKey(hash, r))
  {
    hide Next, Enabled, RequestKey, EventOf, SaveLost, Quiescent;
    var key := RequestKey(hash, r);
    var first := Caller(r, id, SaveFailed);
    var s1 := State({}, [], [], map[0 := Caller(r, id, Checking)]);
    var s2 := State({key}, [], [], map[0 := Caller(r, id, Saving)]);
    var s3 := State({key}, [], [], map[0 := first]);
    var s4 := s3.(callers := s3.callers[1 := Caller(r, other, Checking)]);
    var s5 := s3.(callers := s3.callers[1 := Caller(r, other, Publishing(true))]);
    var s6 := s3.(callers := s3.callers[1 := Caller(r, other, Succeeded(true))],
        published := [Publication(1, EventOf(hash, other, r))]);
    FirstCallFails(hash, r, id, key, s1, s2, s3);
    RetryIsDeduplicated(hash, r, id, other, key, s3, s4, s5);
    RetryPublishes(hash, r, id, other, key, s3, s5, s6);
    var ss := [INITIAL, s1, s2, s3, s4, s5, s6];
    var actions := [Arrive(0, r, id), Check(0), Save(0, false), Arrive(1, r, other), Check(1), Publish(1, true)];
    assert Run(hash, ss, actions);
  }

  lemma FirstCallFails(hash: string -> string, r: Request, id: string, key: string, s1: State, s2: State, s3: State)
    requires IsValid(r) && key == RequestKey(hash, r)
    requires s1 == State({}, [], [], map[0 := Caller(r, id, Checking)])
    requires s2 == State({key}, [], [], map[0 := Caller(r, id, Saving)])
    requires s3 == State({key}, [], [], map[0 := Caller(r, id, SaveFailed)])
    ensures Enabled(INITIAL, Arrive(0, r, id)) && s1 == Next(hash, INITIAL, Arrive(0, r, id))
    ensures Enabled(s1, Check(0)) && s2 == Next(hash, s1, Check(0))
    ensures Enabled(s2, Save(0, false)) && s3 == Next(hash, s2, Save(0, false))
  {
    hide RequestKey;
  }

  lemma RetryIsDeduplicated(hash: string -> string, r: Request, id: string, other: string, key: string, s3: State,
          s4: State, s5: State)
    requires IsValid(r) && id != other && key == RequestKey(hash, r)
    requires s3 == State({key}, [], [], map[0 := Caller(r, id, SaveFailed)])
    requires s4 == s3.(callers := s3.callers[1 := Caller(r, other, Checking)])
    requires s5 == s3.(callers := s3.callers[1 := Caller(r, other, Publishing(true))])
    ensures Enabled(s3, Arrive(1, r, other)) && s4 == Next(hash, s3, Arrive(1, r, other))
    ensures Enabled(s4, Check(1)) && s5 == Next(hash, s4, Check(1))
  {
    hide RequestKey;
  }

  lemma RetryPublishes(hash: string -> string, r: Request, id: string, other: string, key: string, s3: State,
          s5: State, s6: State)
    requires key == RequestKey(hash, r)
    requires s3 == State({key}, [], [], map[0 := Caller(r, id, SaveFailed)])
    requires s5 == s3.(callers := s3.callers[1 := Caller(r, other, Publishing(true))])
    requires s6 == s3.(callers := s3.callers[1 := Caller(r, other, Succeeded(true))],
                       published := [Publication(1, EventOf(hash, other, r))])
    ensures Enabled(s5, Publish(1, true)) && s6 == Next(hash, s5, Publish(1, true))
    ensures Quiescent(s6) && SaveLost(hash, s6, key)
  {
    hide RequestKey, EventOf, Quiescent, SaveLost;
    StillLost(hash, r, id, other, key, s6);
    Overwritten(s3.callers, 1, Caller(r, other, Publishing(true)), Caller(r, other, Succeeded(true)));
  }

  lemma Overwritten<K, T>(m: map<K, T>, k: K, a: T, b: T)
    ensures m[k := a][k := b] == m[k := b]
  {
  }

  lemma StillLost(hash: string -> string, r: Request, id: string, other: string, key: string, s: State)
    requires key == RequestKey(hash, r)
    requires s.callers == map[0 := Caller(r, id, SaveFailed)][1 := Caller(r, other, Succeeded(true))]
    ensures Quiescent(s) && SaveLost(hash, s, key)
  {
    hide RequestKey;
    assert Winner(hash, s, key, 0);
  }

  /** A call published exactly one event if it returned success or "already processed", and none otherwise. */
  lemma PublishedOnceIffSucceeded(hash: string -> string, ss: seq<State>, actions: seq<Action>, n: nat, c: nat)
    requires Run(hash, ss, actions) && n < |ss| && c in ss[n].callers
    ensures HasEvent(ss[n], c) <==> ss[n].callers[c].pc.Succeeded?
    ensures forall i, j | 0 <= i < |ss[n].published| && 0 <= j < |ss[n].published| ::
              ss[n].published[i].caller == c == ss[n].published[j].caller ==> i == j
  {
    RunKeepsInv(hash, ss, actions, n);
  }

  /** An event carries the stored row's identifier exactly when the same call saved and published:
      the event of a deduplicated call names a rating nobody stored. */
  lemma EventIdMatchesRowIffSameCall(hash: string -> string, ss: seq<State>, actions: seq<Action>, n: nat, i: nat,
          j: nat)
    requires Run(hash, ss, actions) && n < |ss| && i < |ss[n].published| && j < |ss[n].rows|
    ensures ss[n].published[i].event.id == ss[n].rows[j].rating.id
            <==> ss[n].published[i].caller == ss[n].rows[j].caller
  {
    RunKeepsInv(hash, ss, actions, n);
  }

  ghost predicate NaturalKeysOnly(s: State) {
    forall c :: c in s.callers ==> s.callers[c].request.idempotencyKey == ""
                                   && SeparatorFree(FieldsOf(s.callers[c].request))
  }

  lemma SameKeySameFields(hash: string -> string, r: Request, q: Request)
    requires Injective(hash) && r.idempotencyKey == "" && q.idempotencyKey == ""
    requires SeparatorFree(FieldsOf(r)) && RequestKey(hash, r) == RequestKey(hash, q)
    ensures r == q
  {
    EncodingIsUniqueIff(FieldsOf(r));
    AtoiItoa(r.stars);
    AtoiItoa(q.stars);
    assert FieldsOf(q)[0] == q.productId && FieldsOf(q)[1] == q.reviewer && FieldsOf(q)[2] == Itoa(q.stars);
  }

  /** With natural keys, every published event, also a deduplicated call's, agrees with the row
      saved under its key. */
  lemma EventsAgreeWithRows(hash: string -> string, ss: seq<State>, actions: seq<Action>, n: nat, i: nat, j: nat)
    requires Run(hash, ss, actions) && n < |ss| && i < |ss[n].published| && j < |ss[n].rows|
    requires Injective(hash) && NaturalKeysOnly(ss[n])
    requires ss[n].rows[j].caller in ss[n].callers && ss[n].published[i].event.idempotencyKey == RowKey(hash, ss[n], j)
    ensures var e, row := ss[n].published[i].event, ss[n].rows[j].rating;
            e.productId == row.productId && e.reviewer == row.reviewer && e.stars == row.stars
  {
    RunKeepsInv(hash, ss, actions, n);
    var s := ss[n];
    SameKeySameFields(hash, s.callers[s.published[i].caller].request, s.callers[s.rows[j].caller].request);
  }

  /** A separator inside a field defeats deduplication between different ratings: two valid
      requests, different product and reviewer, one key. */
  lemma SeparatorMergesRequests(hash: string -> string)
    ensures exists r, q :: IsValid(r) && IsValid(q) && r.idempotencyKey == "" && q.idempotencyKey == ""
                           && r.productId != q.productId && RequestKey(hash, r) == RequestKey(hash, q)
  {
    var r, q := Request("a" + [SEPARATOR] + "b", "c", 5, ""), Request("a", "b" + [SEPARATOR] + "c", 5, "");
    BoundaryMoves([], "a", "b", "c", [Itoa(5)]);
    assert FieldsOf(r) == [] + ["a" + [SEPARATOR] + "b", "c"] + [Itoa(5)];
    assert FieldsOf(q) == [] + ["a", "b" + [SEPARATOR] + "c"] + [Itoa(5)];
    assert |r.productId| == 3;
  }

  /** The effects a state has accumulated, without the caller tags. */
  function EffectsOf(s: State): Effects {
    Effects(s.keys, seq(|s.rows|, i requires 0 <= i < |s.rows| => s.rows[i].rating),
            seq(|s.published|, i requires 0 <= i < |s.published| => s.published[i].event))
  }

  /** A caller that runs without interruption, over a save that does not fail, does what the code of one call does. */
  lemma UninterruptedCallIsSubmitRating(hash: string -> string, s: State, c: nat, r: Request, id: string,
          accepted: bool)
    requires c !in s.callers && FreshRatingId(s, id)
    ensures var s1 := Next(hash, s, Arrive(c, r, id));
            var spec := SubmitAlone(hash, EffectsOf(s), r, id, accepted);
            if !IsValid(r) then s1.callers[c].pc == Rejected && EffectsOf(s1) == spec.0
            else
              && Enabled(s1, Check(c))
              && var s2 := Next(hash, s1, Check(c));
              && (RequestKey(hash, r) in s.keys || Enabled(s2, Save(c, true)))
              && var s3 := if RequestKey(hash, r) in s.keys then s2 else Next(hash, s2, Save(c, true));
              && Enabled(s3, Publish(c, accepted))
              && var s4 := Next(hash, s3, Publish(c, accepted));
              && EffectsOf(s4) == spec.0
              && s4.callers[c].pc == if accepted then Succeeded(RequestKey(hash, r) in s.keys)
                  else PublishRefused(RequestKey(hash, r) in s.keys)
  {
    if IsValid(r) {
      var s2 := Next(hash, Next(hash, s, Arrive(c, r, id)), Check(c));
      var s3 := if RequestKey(hash, r) in s.keys then s2 else Next(hash, s2, Save(c, true));
      var s4 := Next(hash, s3, Publish(c, accepted));
      var spec := SubmitAlone(hash, EffectsOf(s), r, id, accepted).0;
      assert EffectsOf(s4).keys == spec.keys;
      assert EffectsOf(s4).ratings == spec.ratings;
      assert EffectsOf(s4).events == spec.events;
    }
  }
}
