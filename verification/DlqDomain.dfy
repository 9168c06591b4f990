/** The dead-letter event: its value, its status machine, and the mutable object that carries it.

    `Record` is the value of an event; the four transition functions say what each
    lifecycle method does to that value. `DLQEvent` is the heap object the service
    mutates: payload bytes, header lists and the two optional timestamps are separate
    allocations, exactly the parts a shallow struct copy would share. */
module DlqDomain {
  import opened Wrappers

  newtype byte = x: int | 0 <= x < 256

  type Time = int

  datatype Status = Pending | Replayed | Resolved | Poisoned

  datatype DlqError = NotFound | AlreadyResolved | InvalidTransition | TransportFailed

  /** The CloudEvents context captured by a sensor: plain values, never mutated. */
  datatype Envelope = Envelope(
    eventId: string, eventType: string, eventSource: string, eventSubject: string,
    sensorName: string, failedTrigger: string, eventSourceUrl: string, namespaceName: string,
    dataContentType: string, eventTimestamp: Time)

  datatype Record = Record(
    id: string, envelope: Envelope,
    payload: Option<seq<byte>>, payloadHash: string, headers: Option<map<string, seq<string>>>,
    status: Status, retryCount: int, maxRetries: int,
    lastReplayedAt: Option<Time>, resolvedAt: Option<Time>, resolvedBy: string, notes: string,
    createdAt: Time, updatedAt: Time)

  /** A nil payload hashes like an empty one. */
  function PayloadBytes(payload: Option<seq<byte>>): seq<byte> {
    if payload.Some? then payload.value else []
  }

  const DEFAULT_MAX_RETRIES: int := 3

  function EffectiveMaxRetries(requested: int): int {
    if requested < 1 then DEFAULT_MAX_RETRIES else requested
  }

  function NewRecord(id: string, envelope: Envelope, payload: Option<seq<byte>>, payloadHash: string,
                     headers: Option<map<string, seq<string>>>, maxRetries: int, now: Time): Record
  {
    Record(id, envelope, payload, payloadHash, headers,
           Pending, 0, EffectiveMaxRetries(maxRetries), None, None, "", "", now, now)
  }

  function ReplayOf(e: Record, now: Time): Result<Record, DlqError> {
    if e.status != Pending then Err(InvalidTransition)
    else Ok(e.(status := Replayed, lastReplayedAt := Some(now), updatedAt := now))
  }

  function ResolveOf(e: Record, resolver: string, now: Time): Result<Record, DlqError> {
    if e.status == Resolved then Err(AlreadyResolved)
    else if e.status != Replayed && e.status != Pending then Err(InvalidTransition)
    else Ok(e.(status := Resolved, resolvedAt := Some(now), resolvedBy := resolver, updatedAt := now))
  }

  function ReIngestOf(e: Record, now: Time): Result<Record, DlqError> {
    if e.status == Resolved then Err(AlreadyResolved)
    else
      var count := e.retryCount + 1;
      Ok(e.(retryCount := count, status := if count >= e.maxRetries then Poisoned else Pending, updatedAt := now))
  }

  function ResetOf(e: Record, now: Time): Result<Record, DlqError> {
    if e.status != Poisoned then Err(InvalidTransition)
    else Ok(e.(status := Pending, retryCount := 0, updatedAt := now))
  }

  function AsOutcome(r: Result<Record, DlqError>): Outcome<DlqError> {
    if r.Ok? then Done else Failed(r.error)
  }

  /** The event after an attempted transition: unchanged when the transition is refused. */
  function Settled(e: Record, r: Result<Record, DlqError>): Record {
    if r.Ok? then r.value else e
  }

  /** A heap-allocated `time.Time` behind a pointer. */
  class TimeCell {
    var time: Time
    constructor (time: Time)
      ensures this.time == time
    {
      this.time := time;
    }
  }

  /** A `map[string][]string`: the map and each of its lists are separate allocations. */
  class HeaderMap {
    var lists: map<string, array<string>>
    constructor ()
      ensures lists == map[]
    {
      lists := map[];
    }
  }

  ghost function CellValue(c: TimeCell?): Option<Time>
    reads c
  {
    if c == null then None else Some(c.time)
  }

  ghost function CellParts(c: TimeCell?): set<object> {
    if c == null then {} else {c}
  }

  ghost function PayloadValue(payload: array?<byte>): Option<seq<byte>>
    reads payload
  {
    if payload == null then None else Some(payload[..])
  }

  /** `parts` holds the map and every list in it. */
  ghost predicate HeadersWithin(h: HeaderMap?, parts: set<object>)
    reads h
  {
    h != null ==> h in parts && forall k | k in h.lists :: h.lists[k] in parts
  }

  ghost function HeaderValue(h: HeaderMap?, parts: set<object>): Option<map<string, seq<string>>>
    requires HeadersWithin(h, parts)
    reads h, parts
  {
    if h == null then None else Some(map k | k in h.lists :: h.lists[k][..])
  }

  class DLQEvent {
    var id: string
    var envelope: Envelope
    var payload: array?<byte>
    var payloadHash: string
    var headers: HeaderMap?
    var status: Status
    var retryCount: int
    var maxRetries: int
    var lastReplayedAt: TimeCell?
    var resolvedAt: TimeCell?
    var resolvedBy: string
    var notes: string
    var createdAt: Time
    var updatedAt: Time

    /** The payload array, the header map and its lists: set once, never written by the event. */
    ghost var cargo: set<object>

    ghost predicate Valid()
      reads this, cargo
    {
      && this !in cargo
      && (payload == null || payload in cargo)
      && (headers == null || headers in cargo)
      && HeadersWithin(headers, cargo)
    }

    /** Every object whose mutation could change this event's value. */
    ghost function Owned(): set<object>
      reads this
    {
      {this} + cargo + CellParts(lastReplayedAt) + CellParts(resolvedAt)
    }

    ghost function Value(): Record
      requires Valid()
      reads this, cargo, Owned()
    {
      Record(id, envelope, PayloadValue(payload), payloadHash, HeaderValue(headers, cargo),
             status, retryCount, maxRetries, CellValue(lastReplayedAt), CellValue(resolvedAt),
             resolvedBy, notes, createdAt, updatedAt)
    }

    /** A new event keeps the caller's payload and header references, as the source does. */
    constructor (id: string, envelope: Envelope, payload: array?<byte>, payloadHash: string,
                 headers: HeaderMap?, maxRetries: int, now: Time, ghost cargo: set<object>)
      requires payload == null || payload in cargo
      requires HeadersWithin(headers, cargo)
      ensures Valid() && Owned() == {this} + cargo && this.id == id
      ensures Value() == NewRecord(id, envelope, PayloadValue(payload), payloadHash, HeaderValue(headers, cargo),
              maxRetries, now)
    {
      this.id, this.envelope := id, envelope;
      this.payload, this.payloadHash, this.headers, this.cargo := payload, payloadHash, headers, cargo;
      this.status, this.retryCount := Pending, 0;
      this.maxRetries := if maxRetries < 1 then DEFAULT_MAX_RETRIES else maxRetries;
      this.lastReplayedAt, this.resolvedAt := null, null;
      this.resolvedBy, this.notes := "", "";
      this.createdAt, this.updatedAt := now, now;
    }

    /** Copies the struct fields of `e`; the caller supplies the duplicated allocations. */
    constructor Copy(e: DLQEvent, payload: array?<byte>, headers: HeaderMap?,
                     lastReplayedAt: TimeCell?, resolvedAt: TimeCell?, ghost cargo: set<object>)
      requires e.Valid()
      requires payload == null || payload in cargo
      requires HeadersWithin(headers, cargo)
      requires PayloadValue(payload) == PayloadValue(e.payload)
      requires HeaderValue(headers, cargo) == HeaderValue(e.headers, e.cargo)
      requires CellValue(lastReplayedAt) == CellValue(e.lastReplayedAt)
      requires CellValue(resolvedAt) == CellValue(e.resolvedAt)
      ensures Valid() && Value() == e.Value()
      ensures Owned() == {this} + cargo + CellParts(lastReplayedAt) + CellParts(resolvedAt)
    {
      this.id, this.envelope, this.payloadHash := e.id, e.envelope, e.payloadHash;
      this.payload, this.headers, this.cargo := payload, headers, cargo;
      this.status, this.retryCount, this.maxRetries := e.status, e.retryCount, e.maxRetries;
      this.lastReplayedAt, this.resolvedAt := lastReplayedAt, resolvedAt;
      this.resolvedBy, this.notes := e.resolvedBy, e.notes;
      this.createdAt, this.updatedAt := e.createdAt, e.updatedAt;
    }

    method Replay(now: Time) returns (r: Outcome<DlqError>)
      requires Valid()
      modifies this
      ensures Valid() && id == old(id) && fresh(Owned() - old(Owned()))
      ensures r == AsOutcome(ReplayOf(old(Value()), now))
      ensures r == Done ==> old(status) == Pending && status == Replayed && updatedAt == now
                            && lastReplayedAt != null && lastReplayedAt.time == now
      ensures r != Done ==> old(status) != Pending && r == Failed(InvalidTransition)
      ensures Value() == Settled(old(Value()), ReplayOf(old(Value()), now))
    {
      hide HeaderValue, HeadersWithin, PayloadValue;
      if status != Pending {
        return Failed(InvalidTransition);
      }
      var cell := new TimeCell(now);
      status := Replayed;
      lastReplayedAt := cell;
      updatedAt := now;
      assert HeaderValue(headers, cargo) == old(HeaderValue(headers, cargo));
      return Done;
    }

    method Resolve(resolver: string, now: Time) returns (r: Outcome<DlqError>)
      requires Valid()
      modifies this
      ensures Valid() && id == old(id) && fresh(Owned() - old(Owned()))
      ensures r == AsOutcome(ResolveOf(old(Value()), resolver, now))
      ensures r == Done ==> (old(status) == Pending || old(status) == Replayed) && status == Resolved
                            && updatedAt == now
                            && resolvedAt != null && resolvedAt.time == now && resolvedBy == resolver
      ensures r != Done ==> if old(status) == Resolved then r == Failed(AlreadyResolved)
                            else old(status) == Poisoned && r == Failed(InvalidTransition)
      ensures Value() == Settled(old(Value()), ResolveOf(old(Value()), resolver, now))
    {
      hide HeaderValue, HeadersWithin, PayloadValue;
      if status == Resolved {
        return Failed(AlreadyResolved);
      }
      if status != Replayed && status != Pending {
        return Failed(InvalidTransition);
      }
      var cell := new TimeCell(now);
      status := Resolved;
      resolvedAt := cell;
      resolvedBy := resolver;
      updatedAt := now;
      assert HeaderValue(headers, cargo) == old(HeaderValue(headers, cargo));
      return Done;
    }

    method ReIngest(now: Time) returns (r: Outcome<DlqError>)
      requires Valid()
      modifies this
      ensures Valid() && id == old(id) && Owned() == old(Owned())
      ensures r == AsOutcome(ReIngestOf(old(Value()), now))
      ensures r == Done ==> old(status) != Resolved && retryCount == old(retryCount) + 1 && updatedAt == now
                            && status == if retryCount >= maxRetries then Poisoned else Pending
      ensures r != Done ==> old(status) == Resolved && r == Failed(AlreadyResolved)
      ensures Value() == Settled(old(Value()), ReIngestOf(old(Value()), now))
    {
      hide HeaderValue, HeadersWithin, PayloadValue;
      if status == Resolved {
        return Failed(AlreadyResolved);
      }
      retryCount := retryCount + 1;
      if retryCount >= maxRetries {
        status := Poisoned;
      } else {
        status := Pending;
      }
      updatedAt := now;
      assert HeaderValue(headers, cargo) == old(HeaderValue(headers, cargo));
      return Done;
    }

    method ResetPoison(now: Time) returns (r: Outcome<DlqError>)
      requires Valid()
      modifies this
      ensures Valid() && id == old(id) && Owned() == old(Owned())
      ensures r == AsOutcome(ResetOf(old(Value()), now))
      ensures r == Done ==> old(status) == Poisoned && status == Pending && retryCount == 0 && updatedAt == now
      ensures r != Done ==> old(status) != Poisoned && r == Failed(InvalidTransition)
      ensures Value() == Settled(old(Value()), ResetOf(old(Value()), now))
    {
      hide HeaderValue, HeadersWithin, PayloadValue;
      if status != Poisoned {
        return Failed(InvalidTransition);
      }
      status := Pending;
      retryCount := 0;
      updatedAt := now;
      assert HeaderValue(headers, cargo) == old(HeaderValue(headers, cargo));
      return Done;
    }
  }

  /** The value of an event leaves nothing out: events of one value agree in every field and in all they hold. */
  lemma ValueLosesNothing(a: DLQEvent, b: DLQEvent)
    requires a.Valid() && b.Valid() && a.Value() == b.Value()
    ensures a.id == b.id && a.envelope == b.envelope && a.payloadHash == b.payloadHash
    ensures (a.payload == null <==> b.payload == null) && (a.payload != null ==> a.payload[..] == b.payload[..])
    ensures a.headers == null <==> b.headers == null
    ensures a.headers != null ==>
              && a.headers.lists.Keys == b.headers.lists.Keys
              && forall k | k in a.headers.lists :: a.headers.lists[k][..] == b.headers.lists[k][..]
    ensures a.status == b.status && a.retryCount == b.retryCount && a.maxRetries == b.maxRetries
    ensures a.lastReplayedAt == null <==> b.lastReplayedAt == null
    ensures a.lastReplayedAt != null ==> a.lastReplayedAt.time == b.lastReplayedAt.time
    ensures a.resolvedAt == null <==> b.resolvedAt == null
    ensures a.resolvedAt != null ==> a.resolvedAt.time == b.resolvedAt.time
    ensures a.resolvedBy == b.resolvedBy && a.notes == b.notes
    ensures a.createdAt == b.createdAt && a.updatedAt == b.updatedAt
  {
    if a.headers != null {
      var x, y := HeaderValue(a.headers, a.cargo).value, HeaderValue(b.headers, b.cargo).value;
      assert x.Keys == a.headers.lists.Keys && y.Keys == b.headers.lists.Keys;
      forall k | k in a.headers.lists
        ensures a.headers.lists[k][..] == b.headers.lists[k][..]
      {
        assert x[k] == y[k];
      }
    }
  }

  /** An event is unaffected by writes to objects it does not own. */
  twostate lemma Untouched(e: DLQEvent)
    requires old(e.Valid())
    requires forall o | o in old(e.Owned()) :: unchanged(o)
    ensures e.Valid() && e.Owned() == old(e.Owned()) && e.Value() == old(e.Value())
    ensures e.id == old(e.id) && e.cargo == old(e.cargo) && e.cargo <= e.Owned() && e in e.Owned()
  {
    assert e in old(e.Owned());
    assert unchanged(e);
    assert old(e.cargo) <= old(e.Owned());
  }
}
