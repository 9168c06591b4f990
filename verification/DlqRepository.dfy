/** The in-memory dead-letter store: clones on the way in and on the way out.

    `View()` is the store's value. No method ever writes to a stored event, so a caller
    holding a returned event cannot change the view: everything returned is fresh, and
    everything the store adds to its footprint `repr` is fresh too. */
module DlqRepository {
  import opened Wrappers
  import opened Arithmetic
  import opened Ordering
  import opened DlqDomain

  type Db = map<string, Record>

  datatype NaturalKey = NaturalKey(sensorName: string, failedTrigger: string, payloadHash: string)

  function KeyOf(e: Record): NaturalKey {
    NaturalKey(e.envelope.sensorName, e.envelope.failedTrigger, e.payloadHash)
  }

  datatype ListFilter = ListFilter(
    status: string, eventSource: string, sensorName: string, failedTrigger: string,
    createdAfter: Option<Time>, createdBefore: Option<Time>, offset: int, limit: int)

  function StatusText(s: Status): string {
    match s
    case Pending => "pending"
    case Replayed => "replayed"
    case Resolved => "resolved"
    case Poisoned => "poisoned"
  }

  predicate MatchFilter(status: Status, envelope: Envelope, createdAt: Time, f: ListFilter) {
    && (f.status != "" ==> StatusText(status) == f.status)
    && (f.eventSource != "" ==> envelope.eventSource == f.eventSource)
    && (f.sensorName != "" ==> envelope.sensorName == f.sensorName)
    && (f.failedTrigger != "" ==> envelope.failedTrigger == f.failedTrigger)
    && (f.createdAfter.Some? ==> createdAt >= f.createdAfter.value)
    && (f.createdBefore.Some? ==> createdAt <= f.createdBefore.value)
  }

  predicate Matches(e: Record, f: ListFilter) {
    MatchFilter(e.status, e.envelope, e.createdAt, f)
  }

  /** `ids` lists each matching record once, newest first; ties may come in any order. */
  ghost predicate IsListing(db: Db, f: ListFilter, ids: seq<string>) {
    && NoDup(ids)
    && (forall id :: id in ids <==> id in db && Matches(db[id], f))
    && (forall i, j :: 0 <= i < j < |ids| ==> db[ids[i]].createdAt >= db[ids[j]].createdAt)
  }

  /** A limit of zero means no limit; an offset past the end gives the empty page. */
  function PageOf<T>(full: seq<T>, offset: nat, limit: nat): seq<T> {
    var start := if offset > |full| then |full| else offset;
    var end := start + limit;
    full[start..if limit == 0 || end > |full| then |full| else end]
  }

  /** The bounds of a page, or the run-time panic of slicing outside the list. */
  datatype PageBounds = Bounds(lo: nat, hi: nat) | SliceBoundsPanic

  /** The bounds the source computes, in int64 arithmetic; neither offset nor limit is checked. */
  function BoundsOf(total: nat, offset: int, limit: int): (b: PageBounds)
    ensures b.Bounds? ==> b.lo <= b.hi <= total
  {
    var start := if offset > total then total else offset;
    var wrapped := WrapInt64(start + limit);
    var end := if limit == 0 || wrapped > total then total else wrapped;
    if 0 <= start <= end then Bounds(start, end) else SliceBoundsPanic
  }

  /** Within the limits the endpoint lets through, listing panics exactly at a negative offset. */
  lemma ListPanicsIffNegativeOffset(total: nat, offset: int, limit: int)
    requires 1 <= limit && total + limit <= MAX_INT64 && -MAX_INT64 - 1 <= offset
    ensures BoundsOf(total, offset, limit).SliceBoundsPanic? <==> offset < 0
  {
  }

  lemma BoundsSay(total: nat, offset: int, limit: int)
    ensures var start, b := if offset > total then total else offset, BoundsOf(total, offset, limit);
            0 <= offset && 0 <= limit && start + limit <= MAX_INT64 ==>
              b == Bounds(start, if limit == 0 || start + limit > total then total else start + limit)
  {
  }

  /** Where nothing overflows, the bounds are those of the page. */
  lemma BoundsArePage<T>(full: seq<T>, offset: nat, limit: nat)
    requires (if offset > |full| then |full| else offset) + limit <= MAX_INT64
    ensures var b := BoundsOf(|full|, offset, limit); b.Bounds? && PageOf(full, offset, limit) == full[b.lo..b.hi]
  {
  }

  /** What each field of a filter selects; an empty field selects everything, and a status that is none of
      the four selects nothing. */
  lemma ListedIff(db: Db, f: ListFilter, ids: seq<string>, id: string)
    requires IsListing(db, f, ids)
    ensures id in ids <==>
              && id in db
              && (|| f.status == "" || (f.status == "pending" && db[id].status == Pending)
                  || (f.status == "replayed" && db[id].status == Replayed)
                  || (f.status == "resolved" && db[id].status == Resolved)
                  || (f.status == "poisoned" && db[id].status == Poisoned))
              && (f.eventSource == "" || f.eventSource == db[id].envelope.eventSource)
              && (f.sensorName == "" || f.sensorName == db[id].envelope.sensorName)
              && (f.failedTrigger == "" || f.failedTrigger == db[id].envelope.failedTrigger)
              && (f.createdAfter.None? || f.createdAfter.value <= db[id].createdAt)
              && (f.createdBefore.None? || db[id].createdAt <= f.createdBefore.value)
  {
  }

  lemma ListedNewestFirst(db: Db, f: ListFilter, ids: seq<string>)
    requires IsListing(db, f, ids)
    ensures forall i | 0 <= i < |ids| :: ids[i] in db
    ensures forall i, j | 0 <= i < j < |ids| :: ids[i] != ids[j] && db[ids[i]].createdAt >= db[ids[j]].createdAt
  {
    hide Matches;
    assert forall i | 0 <= i < |ids| :: ids[i] in ids;
  }

  method CloneList(source: array<string>) returns (list: array<string>)
    ensures fresh(list) && list[..] == source[..]
  {
    list := new string[source.Length](i requires 0 <= i < source.Length reads source => source[i]);
  }

  method CloneHeaders(h: HeaderMap, ghost parts: set<object>) returns (c: HeaderMap, ghost copies: set<object>)
    requires HeadersWithin(h, parts)
    ensures fresh(copies) && HeadersWithin(c, copies) && HeaderValue(c, copies) == HeaderValue(h, parts)
  {
    c := new HeaderMap();
    copies := {c};
    var todo := h.lists.Keys;
    while todo != {}
      invariant c in copies && fresh(copies) && todo <= h.lists.Keys
      invariant c.lists.Keys == h.lists.Keys - todo
      invariant forall k | k in c.lists :: c.lists[k] in copies && c.lists[k][..] == h.lists[k][..]
      decreases |todo|
    {
      var k :| k in todo;
      var list := CloneList(h.lists[k]);
      c.lists := c.lists[k := list];
      copies := copies + {list};
      todo := todo - {k};
    }
    assert HeaderValue(c, copies).value == HeaderValue(h, parts).value;
  }

  method CloneCell(t: TimeCell?) returns (c: TimeCell?)
    ensures c != null ==> fresh(c)
    ensures CellValue(c) == CellValue(t)
  {
    c := null;
    if t != null {
      c := new TimeCell(t.time);
    }
  }

  method ClonePayload(p: array?<byte>) returns (c: array?<byte>)
    ensures c != null ==> fresh(c)
    ensures PayloadValue(c) == PayloadValue(p)
  {
    c := null;
    if p != null {
      c := new byte[p.Length](i requires 0 <= i < p.Length reads p => p[i]);
      assert c[..] == p[..];
    }
  }

  /** Deep copy: same value, nothing shared. */
  method CloneEvent(e: DLQEvent) returns (c: DLQEvent)
    requires e.Valid()
    ensures fresh(c) && c.Valid() && fresh(c.Owned()) && c.Value() == e.Value() && c.id == e.id
  {
    var payload := ClonePayload(e.payload);
    var replayed := CloneCell(e.lastReplayedAt);
    var resolved := CloneCell(e.resolvedAt);
    var headers: HeaderMap? := null;
    ghost var copies: set<object> := {};
    if e.headers != null {
      headers, copies := CloneHeaders(e.headers, e.cargo);
    }
    ghost var cargo := copies + if payload == null then {} else {payload};
    if headers != null {
      assert HeaderValue(headers, cargo).value == HeaderValue(headers, copies).value;
    }
    c := new DLQEvent.Copy(e, payload, headers, replayed, resolved, cargo);
  }

  /** `e` is a valid copy of the record the database holds under its identifier and shares no object
      with the store's footprint. */
  ghost predicate IsIsolatedCopy(e: DLQEvent, db: Db, store: set<object>)
    reads e, e.cargo, e.Owned()
  {
    e.Valid() && e.Owned() !! store && e.id in db && e.Value() == db[e.id]
  }

  /** Orders distinct events by creation time, newest first; the order of ties is not promised. */
  method SortNewestFirst(es: seq<DLQEvent>, ghost db: Db, ghost store: set<object>) returns (r: seq<DLQEvent>)
    requires NoDup(es) && forall e | e in es :: IsIsolatedCopy(e, db, store)
    ensures forall e | e in r :: IsIsolatedCopy(e, db, store)
    ensures NoDup(r) && |r| == |es| && forall e :: e in r <==> e in es
    ensures forall i, j :: 0 <= i < j < |r| ==> r[i].createdAt >= r[j].createdAt
  {
    hide IsIsolatedCopy;
    r := [];
    for n := 0 to |es|
      invariant NoDup(r) && |r| == n && forall e :: e in r <==> e in es[..n]
      invariant forall i, j :: 0 <= i < j < |r| ==> r[i].createdAt >= r[j].createdAt
    {
      var e := es[n];
      var k := 0;
      while k < |r| && r[k].createdAt >= e.createdAt
        invariant 0 <= k <= |r|
        invariant forall i :: 0 <= i < k ==> r[i].createdAt >= e.createdAt
      {
        k := k + 1;
      }
      assert e !in r;
      assert forall x :: x in r <==> x in r[..k] || x in r[k..];
      r := r[..k] + [e] + r[k..];
      assert es[..n + 1] == es[..n] + [e];
    }
    assert es[..|es|] == es;
  }

  lemma CopyCreatedAt(e: DLQEvent, db: Db, store: set<object>)
    requires IsIsolatedCopy(e, db, store)
    ensures e.id in db && e.createdAt == db[e.id].createdAt
  {
  }

  lemma DistinctIds(es: seq<DLQEvent>)
    requires forall i, j :: 0 <= i < j < |es| ==> es[i].id != es[j].id
    ensures NoDup(es)
  {
  }

  /** Sorting the collected copies and reading off their identifiers gives a listing. */
  lemma SortedIdsAreListing(db: Db, f: ListFilter, matched: seq<DLQEvent>, sorted: seq<DLQEvent>, ids: seq<string>)
    requires forall e | e in matched :: e.id in db && Matches(db[e.id], f) && e.createdAt == db[e.id].createdAt
    requires forall i, j :: 0 <= i < j < |matched| ==> matched[i].id != matched[j].id
    requires forall id | id in db && Matches(db[id], f) :: exists e :: e in matched && e.id == id
    requires NoDup(sorted) && forall e :: e in sorted <==> e in matched
    requires forall i, j :: 0 <= i < j < |sorted| ==> sorted[i].createdAt >= sorted[j].createdAt
    requires |ids| == |sorted| && forall i | 0 <= i < |ids| :: ids[i] == sorted[i].id
    ensures IsListing(db, f, ids)
  {
    forall i | 0 <= i < |ids|
      ensures ids[i] in db && Matches(db[ids[i]], f) && db[ids[i]].createdAt == sorted[i].createdAt
    {
      assert sorted[i] in matched;
    }
    forall id | id in db && Matches(db[id], f)
      ensures id in ids
    {
      var e :| e in matched && e.id == id;
      assert e in sorted;
      var i :| 0 <= i < |sorted| && sorted[i] == e;
      assert ids[i] == id;
    }
    forall i, j | 0 <= i < j < |ids|
      ensures ids[i] != ids[j]
    {
      assert sorted[i] in matched && sorted[j] in matched;
      var m :| 0 <= m < |matched| && matched[m] == sorted[i];
      var n :| 0 <= n < |matched| && matched[n] == sorted[j];
    }
  }

  class DLQRepository {
    var events: map<string, DLQEvent>
    ghost var repr: set<object>

    ghost predicate Valid()
      reads this, repr
    {
      forall id | id in events ::
        && events[id] in repr
        && events[id].cargo <= repr
        && events[id].Valid()
        && events[id].Owned() <= repr
        && this !in events[id].Owned()
        && events[id].id == id
    }

    ghost function View(): Db
      requires Valid()
      reads this, repr
    {
      map id | id in events :: events[id].Value()
    }

    constructor ()
      ensures Valid() && View() == map[] && repr == {}
    {
      events := map[];
      repr := {};
    }

    /** Puts a clone under its identifier; the store then owns it. */
    method Keep(c: DLQEvent)
      requires Valid() && c.Valid() && this !in c.Owned()
      modifies this
      ensures Valid() && repr == old(repr) + c.Owned()
      ensures View() == old(View())[c.id := old(c.Value())]
    {
      hide DLQEvent.Valid, DLQEvent.Owned, DLQEvent.Value;
      ghost var before := View();
      events := events[c.id := c];
      repr := repr + c.Owned();
      Untouched(c);
      forall id | id in old(events)
        ensures var e := old(events)[id];
                e.Valid() && e.Owned() == old(e.Owned()) && e.id == id && e.cargo <= repr && e in repr
                    && e.Value() == before[id]
      {
        Untouched(old(events)[id]);
      }
    }

    method Save(event: DLQEvent)
      requires Valid() && event.Valid() && this !in event.Owned()
      modifies this
      ensures Valid() && fresh(repr - old(repr)) && old(repr) <= repr
      ensures View() == old(View())[old(event.id) := old(event.Value())]
      ensures event.Valid() && event.Owned() == old(event.Owned()) && event.Value() == old(event.Value())
    {
      hide Valid, View, DLQEvent.Valid, DLQEvent.Value;
      var c := CloneEvent(event);
      Keep(c);
      Untouched(event);
    }

    method FindByID(id: string) returns (r: Result<DLQEvent, DlqError>)
      requires Valid()
      ensures r.Ok? <==> id in View()
      ensures r.Ok? ==> fresh(r.value) && fresh(r.value.Owned()) && r.value.Valid() && r.value.Value() == View()[id]
                        && r.value.id == id
      ensures r.Err? ==> r.error == NotFound
    {
      if id !in events {
        return Err(NotFound);
      }
      var c := CloneEvent(events[id]);
      return Ok(c);
    }

    /** The map is visited in arbitrary order and the first match wins. */
    method FindByNaturalKey(k: NaturalKey) returns (r: Result<DLQEvent, DlqError>)
      requires Valid()
      ensures r.Ok? ==> fresh(r.value) && fresh(r.value.Owned()) && r.value.Valid() && r.value.id in View()
                        && r.value.Value() == View()[r.value.id] && KeyOf(r.value.Value()) == k
      ensures r.Err? ==> r.error == NotFound && forall id | id in View() :: KeyOf(View()[id]) != k
      ensures r.Ok? ==> r.value.envelope.sensorName == k.sensorName && r.value.envelope.failedTrigger == k.failedTrigger
                        && r.value.payloadHash == k.payloadHash
    {
      var todo := events.Keys;
      while todo != {}
        invariant todo <= events.Keys
        invariant forall id | id in events && id !in todo :: KeyOf(View()[id]) != k
        decreases |todo|
      {
        var id :| id in todo;
        var e := events[id];
        assert View()[id] == e.Value();
        if e.envelope.sensorName == k.sensorName && e.envelope.failedTrigger == k.failedTrigger
            && e.payloadHash == k.payloadHash {
          var c := CloneEvent(e);
          assert c.Value() == View()[id] && c.Value().id == c.id;
          return Ok(c);
        }
        todo := todo - {id};
      }
      return Err(NotFound);
    }

    method Ids() returns (ids: set<string>)
      requires Valid()
      ensures ids == View().Keys
    {
      ids := events.Keys;
    }

    /** A clone of one stored event, or null when the filter rejects it. */
    method CloneMatch(id: string, f: ListFilter) returns (c: DLQEvent?)
      requires Valid() && id in View()
      ensures c == null <==> !Matches(View()[id], f)
      ensures c != null ==> IsIsolatedCopy(c, View(), repr) && c.id == id
    {
      ghost var db := View();
      var e := events[id];
      assert db[id] == e.Value();
      c := null;
      if MatchFilter(e.status, e.envelope, e.createdAt, f) {
        c := CloneEvent(e);
      }
    }

    /** As `CloneMatch`; the copies collected before stay isolated. */
    method CloneNext(id: string, f: ListFilter, ghost earlier: seq<DLQEvent>) returns (c: DLQEvent?)
      requires Valid() && id in View()
      requires forall e | e in earlier :: IsIsolatedCopy(e, View(), repr)
      ensures forall e | e in earlier :: IsIsolatedCopy(e, View(), repr)
      ensures c == null <==> !Matches(View()[id], f)
      ensures c != null ==> IsIsolatedCopy(c, View(), repr) && c.id == id
    {
      hide Valid, View, DLQEvent.Valid, DLQEvent.Value;
      c := CloneMatch(id, f);
      forall e | e in earlier
        ensures IsIsolatedCopy(e, View(), repr)
      {
        Untouched(e);
      }
    }

    /** Clones every matching event, visiting the map in arbitrary order. */
    method CollectMatching(f: ListFilter) returns (matched: seq<DLQEvent>)
      requires Valid()
      ensures forall e | e in matched ::
                IsIsolatedCopy(e, View(), repr) && e.id in View() && Matches(View()[e.id], f)
                    && e.createdAt == View()[e.id].createdAt
      ensures NoDup(matched) && forall i, j :: 0 <= i < j < |matched| ==> matched[i].id != matched[j].id
      ensures forall id | id in View() && Matches(View()[id], f) :: exists e :: e in matched && e.id == id
    {
      hide *;
      ghost var db := View();
      var todo := Ids();
      matched := [];
      while todo != {}
        invariant todo <= db.Keys
        invariant forall e | e in matched :: IsIsolatedCopy(e, db, repr) && e.id in db && e.id !in todo
                                          && Matches(db[e.id], f) && e.createdAt == db[e.id].createdAt
        invariant forall i, j :: 0 <= i < j < |matched| ==> matched[i].id != matched[j].id
        invariant forall id | id in db && id !in todo && Matches(db[id], f) :: exists e :: e in matched && e.id == id
        decreases |todo|
      {
        var id :| id in todo;
        todo := todo - {id};
        var c := CloneNext(id, f, matched);
        if c != null {
          CopyCreatedAt(c, db, repr);
          matched := matched + [c];
        }
      }
      DistinctIds(matched);
    }

    /** All matching copies, newest first. */
    method SortedMatches(f: ListFilter) returns (sorted: seq<DLQEvent>, ghost ids: seq<string>)
      requires Valid()
      ensures IsListing(View(), f, ids) && |sorted| == |ids|
      ensures forall i | 0 <= i < |ids| :: IsIsolatedCopy(sorted[i], View(), repr) && sorted[i].id == ids[i]
      ensures forall i, j | 0 <= i < j < |sorted| :: sorted[i].createdAt >= sorted[j].createdAt
    {
      hide *;
      var matched := CollectMatching(f);
      sorted := SortNewestFirst(matched, View(), repr);
      ids := seq(|sorted|, i requires 0 <= i < |sorted| reads sorted => sorted[i].id);
      SortedIdsAreListing(View(), f, matched, sorted, ids);
    }

    /** The page of the listing the computed bounds select; None is the panic. */
    method List(f: ListFilter) returns (page: Option<seq<DLQEvent>>, total: nat, ghost ids: seq<string>)
      requires Valid()
      ensures IsListing(View(), f, ids) && total == |ids|
      ensures page.None? <==> BoundsOf(|ids|, f.offset, f.limit).SliceBoundsPanic?
      ensures page.Some? ==>
                var b := BoundsOf(|ids|, f.offset, f.limit);
                && |page.value| == b.hi - b.lo
                && forall i | 0 <= i < |page.value| :: IsIsolatedCopy(page.value[i], View(), repr)
                    && page.value[i].id == ids[b.lo + i]
      ensures var start := if f.offset > total then total else f.offset;
              0 <= f.offset && 0 <= f.limit && start + f.limit <= MAX_INT64 ==>
                && page.Some?
                && |page.value| == (if f.limit == 0 || start + f.limit > total then total - start else f.limit)
                && forall i | 0 <= i < |page.value| :: page.value[i].id == ids[start + i]
      ensures page.Some? ==> forall i, j | 0 <= i < j < |page.value| ::
                page.value[i].createdAt >= page.value[j].createdAt
    {
      hide *;
      var sorted;
      sorted, ids := SortedMatches(f);
      total := |sorted|;
      var b := BoundsOf(total, f.offset, f.limit);
      BoundsSay(total, f.offset, f.limit);
      page := if b.SliceBoundsPanic? then None else Some(sorted[b.lo..b.hi]);
    }

    method Update(event: DLQEvent) returns (r: Outcome<DlqError>)
      requires Valid() && event.Valid() && this !in event.Owned()
      modifies this
      ensures Valid() && fresh(repr - old(repr)) && old(repr) <= repr
      ensures old(event.id) in old(View()) ==>
                r == Done && View() == old(View())[old(event.id) := old(event.Value())]
      ensures old(event.id) !in old(View()) ==> r == Failed(NotFound) && View() == old(View())
      ensures event.Valid() && event.Owned() == old(event.Owned()) && event.Value() == old(event.Value())
    {
      hide DLQEvent.Valid, DLQEvent.Owned, DLQEvent.Value;
      if event.id !in events {
        return Failed(NotFound);
      }
      assert event.id in View();
      Save(event);
      return Done;
    }
  }
}
