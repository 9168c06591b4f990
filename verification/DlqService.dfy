/** The dead-letter service: each call fetches a private copy, mutates it, and writes it back.

    Every method is proved against the store-level step functions of `DlqLifecycle`, so a call
    that fails after its fetched copy was already mutated provably leaves the store as it was. */
module DlqService {
  import opened Wrappers
  import opened Arithmetic
  import opened Ordering
  import opened DlqDomain
  import opened DlqRepository
  import opened DlqLifecycle
  import opened DlqBatch

  datatype Post = Post(url: string, payload: Option<seq<byte>>, headers: Option<map<string, seq<string>>>,
      delivered: bool)

  /** `posts` is `before` followed by one delivered post per record of the first `n` of the page: its payload
      and headers, back to where the event came from. */
  ghost predicate PostedPrefix(db: Db, page: seq<string>, n: nat, before: seq<Post>, posts: seq<Post>) {
    && n <= |page| && |posts| == |before| + n && posts[..|before|] == before
    && forall i | 0 <= i < n ::
         && page[i] in db
         && posts[|before| + i]
            == Post(db[page[i]].envelope.eventSourceUrl, db[page[i]].payload, db[page[i]].headers, true)
  }

  /** How a batch replay ended. */
  datatype BatchEnd = Finished | Stopped(error: DlqError) | Panicked

  /** The HTTP client that re-posts an event; whether a post is delivered is up to the network. */
  class ReplayClient {
    ghost var posts: seq<Post>

    constructor ()
      ensures posts == []
    {
      posts := [];
    }

    method Replay(url: string, payload: array?<byte>, headers: HeaderMap?, ghost cargo: set<object>)
      returns (delivered: bool)
      requires HeadersWithin(headers, cargo)
      modifies this
      ensures posts == old(posts) + [Post(url, if payload == null then None else Some(old(payload[..])),
                                          if headers == null then None
                                          else Some(old(map k | k in headers.lists :: headers.lists[k][..])),
                                          delivered)]
    {
      delivered := *;
      posts := posts + [Post(url, PayloadValue(payload), HeaderValue(headers, cargo), delivered)];
    }
  }

  /** The call reached the transport, and the transport accepted it, unless it reports otherwise. */
  function Delivered<T>(r: Result<T, DlqError>): bool {
    r != Err(TransportFailed)
  }

  /** The returned object carries the stored record and shares nothing with the store. */
  ghost predicate Returns(e: DLQEvent, record: Record, store: set<object>)
    reads e, e.cargo, e.Owned()
  {
    e.Valid() && e.Value() == record && e.Owned() !! store
  }

  class DLQService {
    const repo: DLQRepository
    const replayer: ReplayClient
    const maxRetries: int
    const hash: seq<byte> -> string

    ghost predicate Valid()
      reads repo, repo.repr
    {
      repo.Valid() && replayer !in repo.repr
    }

    constructor (repo: DLQRepository, replayer: ReplayClient, maxRetries: int, hash: seq<byte> -> string)
      requires repo.Valid() && replayer !in repo.repr
      ensures Valid() && this.repo == repo && this.replayer == replayer && this.hash == hash
      ensures this.maxRetries == EffectiveMaxRetries(maxRetries)
    {
      this.repo, this.replayer, this.hash := repo, replayer, hash;
      this.maxRetries := if maxRetries < 1 then DEFAULT_MAX_RETRIES else maxRetries;
    }

    method HashPayload(payload: array?<byte>) returns (h: string)
      ensures h == hash(PayloadBytes(PayloadValue(payload))) == hash(if payload == null then [] else payload[..])
    {
      if payload == null {
        h := hash([]);
      } else {
        h := hash(payload[..]);
      }
    }

    method IngestEvent(envelope: Envelope, payload: array?<byte>, headers: HeaderMap?, ghost cargo: set<object>,
                       freshId: string, now: Time) returns (e: DLQEvent)
      requires Valid()
      requires payload == null || payload in cargo
      requires HeadersWithin(headers, cargo) && cargo !! repo.repr && repo !in cargo
      modifies repo
      ensures Valid() && e.Valid() && e.Owned() !! repo.repr
      ensures var a := Arrival(envelope, old(PayloadValue(payload)), hash(PayloadBytes(old(PayloadValue(payload)))),
                               old(HeaderValue(headers, cargo)));
              IngestEffect(old(repo.View()), maxRetries, a, freshId, now, repo.View(), e.Value())
      ensures var db, db', result := old(repo.View()), repo.View(), e.Value();
              var digest := hash(if payload == null then [] else old(payload[..]));
              if exists id :: id in db && db[id].envelope.sensorName == envelope.sensorName
                              && db[id].envelope.failedTrigger == envelope.failedTrigger && db[id].payloadHash == digest
              then
                exists id :: && id in db && db[id].envelope.sensorName == envelope.sensorName
                             && db[id].envelope.failedTrigger == envelope.failedTrigger && db[id].payloadHash == digest
                             && db' == db[id := result]
                             && result == if db[id].status == Resolved then db[id]
                                          else db[id].(retryCount := db[id].retryCount + 1, updatedAt := now,
                                                       status := if db[id].retryCount + 1 >= db[id].maxRetries
                                                                 then Poisoned else Pending)
              else
                && db' == db[freshId := result]
                && result == Record(freshId, envelope, if payload == null then None else Some(old(payload[..])), digest,
                                    if headers == null then None
                                    else Some(old(map k | k in headers.lists :: headers.lists[k][..])),
                                    Pending, 0, if maxRetries < 1 then 3 else maxRetries, None, None, "", "", now, now)
    {
      hide DLQEvent.Valid, DLQEvent.Value, repo.Valid, repo.View, IngestEffect, HeadersWithin, HeaderValue,
          PayloadValue;
      ghost var db := repo.View();
      ArgumentValues(payload, headers, cargo);
      ghost var a := Arrival(envelope, PayloadValue(payload), hash(PayloadBytes(PayloadValue(payload))),
          HeaderValue(headers, cargo));
      var digest := HashPayload(payload);
      var existing := repo.FindByNaturalKey(NaturalKey(envelope.sensorName, envelope.failedTrigger, digest));
      if existing.Ok? {
        e := existing.value;
        DuplicateEffect(db, maxRetries, a, freshId, now, e.id);
        ReIngestDuplicate(e, now);
        IngestSays(db, maxRetries, a, freshId, now, repo.View(), e.Value());
      } else {
        forall id | id in db
          ensures KeyOf(db[id]) != ArrivalKey(a)
        {
          assert id in repo.View()
                 && KeyOf(repo.View()[id]) != NaturalKey(envelope.sensorName, envelope.failedTrigger, digest);
        }
        CreationEffect(db, maxRetries, a, freshId, now);
        e := new DLQEvent(freshId, envelope, payload, digest, headers, maxRetries, now, cargo);
        repo.Save(e);
        IngestSays(db, maxRetries, a, freshId, now, repo.View(), e.Value());
      }
    }

    /** Only a resolved record refuses, and it absorbs the arrival silently. */
    method ReIngestDuplicate(e: DLQEvent, now: Time)
      requires Valid() && e.Valid() && e.Owned() !! repo.repr && repo !in e.Owned()
      requires e.id in repo.View() && e.Value() == repo.View()[e.id]
      modifies repo, e
      ensures Valid() && e.Valid() && e.Owned() !! repo.repr
      ensures e.Value() == Settled(old(e.Value()), ReIngestOf(old(e.Value()), now))
      ensures repo.View() == old(repo.View())[e.id := e.Value()] && e.id == old(e.id)
    {
      hide DLQEvent.Valid, DLQEvent.Value, repo.Valid, repo.View, HeadersWithin, HeaderValue, PayloadValue;
      var refused := e.ReIngest(now);
      if refused.Failed? {
        return;
      }
      var updated := repo.Update(e);
    }

    method GetEvent(id: string) returns (r: Result<DLQEvent, DlqError>)
      requires Valid()
      ensures r.Ok? <==> id in repo.View()
      ensures r.Ok? ==> Returns(r.value, repo.View()[id], repo.repr)
      ensures r.Err? ==> r.error == NotFound
    {
      r := repo.FindByID(id);
    }

    /** Posts first and writes back only when the transport accepted the post. */
    method ReplayEvent(id: string, now: Time) returns (r: Result<DLQEvent, DlqError>)
      requires Valid()
      modifies repo, replayer
      ensures Valid() && old(repo.repr) <= repo.repr && fresh(repo.repr - old(repo.repr))
      ensures var spec := ReplayResult(old(repo.View()), id, Delivered(r), now);
              && repo.View() == Written(old(repo.View()), id, spec)
              && (if spec.Ok? then r.Ok? && Returns(r.value, spec.value, repo.repr) else r == Err(spec.error))
      ensures var db := old(repo.View());
              replayer.posts == old(replayer.posts) +
                if id in db && db[id].status == Pending
                then [Post(db[id].envelope.eventSourceUrl, db[id].payload, db[id].headers, r.Ok?)] else []
      ensures var db := old(repo.View());
              match r
              case Ok(_) => && id in db && db[id].status == Pending
                            && repo.View() == db[id := db[id].(status := Replayed, lastReplayedAt := Some(now),
                                                               updatedAt := now)]
              case Err(e) => repo.View() == db && e == if id !in db then NotFound
                             else if db[id].status == Pending then TransportFailed else InvalidTransition
    {
      hide DLQEvent.Valid, DLQEvent.Value, repo.Valid, repo.View;
      var found := repo.FindByID(id);
      if found.Err? {
        return Err(found.error);
      }
      var e := found.value;
      var refused := e.Replay(now);
      if refused.Failed? {
        return Err(refused.error);
      }
      var delivered := PostThenUpdate(e);
      if !delivered {
        return Err(TransportFailed);
      }
      return Ok(e);
    }

    /** The fetched event, already marked replayed, reaches the store only if the transport takes the post. */
    method PostThenUpdate(e: DLQEvent) returns (delivered: bool)
      requires Valid() && e.Valid() && e.Owned() !! repo.repr && repo !in e.Owned() && replayer !in e.Owned()
      requires e.id in repo.View()
      modifies repo, replayer
      ensures Valid() && old(repo.repr) <= repo.repr && fresh(repo.repr - old(repo.repr))
      ensures e.Valid() && e.Value() == old(e.Value()) && e.Owned() == old(e.Owned()) && e.Owned() !! repo.repr
      ensures var sent := old(e.Value());
              replayer.posts == old(replayer.posts)
                                + [Post(sent.envelope.eventSourceUrl, sent.payload, sent.headers, delivered)]
      ensures repo.View() == if delivered then old(repo.View())[old(e.id) := old(e.Value())] else old(repo.View())
    {
      hide DLQEvent.Value, repo.Valid, repo.View, HeaderValue, PayloadValue;
      EventParts(e);
      delivered := replayer.Replay(e.envelope.eventSourceUrl, e.payload, e.headers, e.cargo);
      if delivered {
        var updated := repo.Update(e);
      }
    }

    method ResolveEvent(id: string, resolver: string, now: Time) returns (r: Result<DLQEvent, DlqError>)
      requires Valid()
      modifies repo
      ensures Valid() && old(repo.repr) <= repo.repr && fresh(repo.repr - old(repo.repr))
      ensures var spec := ResolveResult(old(repo.View()), id, resolver, now);
              && repo.View() == Written(old(repo.View()), id, spec)
              && (if spec.Ok? then r.Ok? && Returns(r.value, spec.value, repo.repr) else r == Err(spec.error))
      ensures var db := old(repo.View());
              match r
              case Ok(_) => && id in db && (db[id].status == Pending || db[id].status == Replayed)
                            && repo.View() == db[id := db[id].(status := Resolved, resolvedAt := Some(now),
                                                               resolvedBy := resolver, updatedAt := now)]
              case Err(e) => repo.View() == db && if id !in db then e == NotFound
                             else if db[id].status == Resolved then e == AlreadyResolved
                             else db[id].status == Poisoned && e == InvalidTransition
    {
      hide DLQEvent.Valid, DLQEvent.Value, repo.Valid, repo.View;
      var found := repo.FindByID(id);
      if found.Err? {
        return Err(found.error);
      }
      var e := found.value;
      var refused := e.Resolve(resolver, now);
      if refused.Failed? {
        return Err(refused.error);
      }
      var updated := repo.Update(e);
      return Ok(e);
    }

    method ResetPoisoned(id: string, now: Time) returns (r: Result<DLQEvent, DlqError>)
      requires Valid()
      modifies repo
      ensures Valid() && old(repo.repr) <= repo.repr && fresh(repo.repr - old(repo.repr))
      ensures var spec := ResetResult(old(repo.View()), id, now);
              && repo.View() == Written(old(repo.View()), id, spec)
              && (if spec.Ok? then r.Ok? && Returns(r.value, spec.value, repo.repr) else r == Err(spec.error))
      ensures var db := old(repo.View());
              match r
              case Ok(_) => && id in db && db[id].status == Poisoned
                            && repo.View() == db[id := db[id].(status := Pending, retryCount := 0, updatedAt := now)]
              case Err(e) => repo.View() == db && if id !in db then e == NotFound
                             else db[id].status != Poisoned && e == InvalidTransition
    {
      hide DLQEvent.Valid, DLQEvent.Value, repo.Valid, repo.View;
      var found := repo.FindByID(id);
      if found.Err? {
        return Err(found.error);
      }
      var e := found.value;
      var refused := e.ResetPoison(now);
      if refused.Failed? {
        return Err(refused.error);
      }
      var updated := repo.Update(e);
      return Ok(e);
    }

    /** Replays the listed page in order and stops at the first failure. */
    method BatchReplay(f: ListFilter, clock: nat -> Time)
      returns (replayed: nat, end: BatchEnd, ghost ids: seq<string>, ghost page: seq<string>)
      requires Valid()
      modifies repo, replayer
      ensures Valid()
      ensures IsListing(old(repo.View()), f, ids)
      ensures var b := BoundsOf(|ids|, f.offset, f.limit);
              (end.Panicked? <==> b.SliceBoundsPanic?) && page == if b.Bounds? then ids[b.lo..b.hi] else []
      ensures ReplayedPrefix(old(repo.View()), page, replayed, clock, repo.View())
      ensures end.Stopped? <==> replayed < |page|
      ensures end.Stopped? ==> page[replayed] in old(repo.View())
      ensures end.Stopped? ==>
                end.error == if old(repo.View())[page[replayed]].status == Pending then TransportFailed
                             else InvalidTransition
      ensures var db, count := old(repo.View()), |old(replayer.posts)| + replayed;
              if end == Stopped(TransportFailed) then
                && |replayer.posts| == count + 1 && page[replayed] in db
                && PostedPrefix(db, page, replayed, old(replayer.posts), replayer.posts[..count])
                && replayer.posts[count] == Post(db[page[replayed]].envelope.eventSourceUrl, db[page[replayed]].payload,
                                                 db[page[replayed]].headers, false)
              else
                PostedPrefix(db, page, replayed, old(replayer.posts), replayer.posts)
    {
      hide repo.Valid, repo.View, DLQEvent.Valid, DLQEvent.Owned, DLQEvent.Value, IsIsolatedCopy, Returns,
          ReplayedPrefix, IsListing, NoDup,
           BoundsOf, ReplayResult, PostedPrefix;
      ghost var db, posts := repo.View(), replayer.posts;
      var events, total;
      events, total, ids := repo.List(f);
      replayed, end, page := 0, Finished, [];
      NonePosted(db, [], posts);
      NoneReplayed(db, [], clock);
      if events.None? {
        return 0, Panicked, ids, [];
      }
      ghost var b := BoundsOf(|ids|, f.offset, f.limit);
      page := ids[b.lo..b.hi];
      ListedPage(db, f, ids, b.lo, b.hi);
      NonePosted(db, page, posts);
      NoneReplayed(db, page, clock);
      for i := 0 to |events.value|
        invariant Valid() && fresh(repo.repr - old(repo.repr)) && old(repo.repr) <= repo.repr
        invariant |events.value| == |page| && forall j | 0 <= j < |events.value| :: events.value[j].id == page[j]
        invariant replayed == i && ReplayedPrefix(db, page, replayed, clock, repo.View())
        invariant PostedPrefix(db, page, replayed, posts, replayer.posts)
      {
        ghost var before, sent := repo.View(), replayer.posts;
        var r := ReplayEvent(events.value[i].id, clock(i));
        ReplayNext(db, page, replayed, clock, before, Delivered(r), repo.View());
        PostNext(db, page, replayed, clock, before, posts, sent, r, replayer.posts);
        if r.Err? {
          return replayed, Stopped(r.error), ids, page;
        }
        replayed := replayed + 1;
      }
    }

    /** Resolves the identifiers in order and stops at the first refusal; a repeated identifier is one. */
    method BatchResolve(ids: seq<string>, resolver: string, clock: nat -> Time)
      returns (resolved: nat, err: Option<DlqError>)
      requires Valid()
      modifies repo
      ensures Valid()
      ensures ResolvedPrefix(old(repo.View()), ids, resolved, resolver, clock, repo.View())
      ensures err.None? <==> resolved == |ids|
      ensures err.Some? ==> ResolveResult(repo.View(), ids[resolved], resolver, clock(resolved)) == Err(err.value)
    {
      hide repo.Valid, repo.View, Returns, ResolveResult, ResolvedPrefix;
      ghost var db := repo.View();
      NoneResolved(db, ids, resolver, clock);
      resolved, err := 0, None;
      for i := 0 to |ids|
        invariant Valid() && fresh(repo.repr - old(repo.repr)) && old(repo.repr) <= repo.repr
        invariant resolved == i && ResolvedPrefix(db, ids, resolved, resolver, clock, repo.View())
      {
        ghost var before := repo.View();
        var r := ResolveEvent(ids[i], resolver, clock(i));
        ResolveNext(db, ids, resolved, resolver, clock, before, repo.View());
        if r.Err? {
          return resolved, Some(r.error);
        }
        resolved := resolved + 1;
      }
    }
  }

  lemma ListedPage(db: Db, f: ListFilter, ids: seq<string>, lo: nat, hi: nat)
    requires IsListing(db, f, ids) && lo <= hi <= |ids|
    ensures NoDup(ids[lo..hi]) && forall i | 0 <= i < hi - lo :: ids[lo..hi][i] in db
  {
    forall i | 0 <= i < hi - lo
      ensures ids[lo..hi][i] in db
    {
      assert ids[lo + i] in ids;
    }
  }

  /** What `BatchReplay` promises, for a filter on pending records whose bounds do not overflow: it stops at
      nothing but a failed post, and without one it has replayed its whole page. */
  lemma DeliveredBatchIsFull(db: Db, f: ListFilter, clock: nat -> Time, replayed: nat, end: BatchEnd, ids: seq<string>,
          page: seq<string>, db': Db)
    requires f.status == "pending" && 0 <= f.offset && 0 <= f.limit
    requires (if f.offset > |ids| then |ids| else f.offset) + f.limit <= MAX_INT64
    requires IsListing(db, f, ids)
    requires var b := BoundsOf(|ids|, f.offset, f.limit);
             (end.Panicked? <==> b.SliceBoundsPanic?) && page == if b.Bounds? then ids[b.lo..b.hi] else []
    requires ReplayedPrefix(db, page, replayed, clock, db')
    requires end.Stopped? <==> replayed < |page|
    requires end.Stopped? ==> page[replayed] in db
    requires end.Stopped? ==> end.error == if db[page[replayed]].status == Pending then TransportFailed
             else InvalidTransition
    ensures end == Finished || end == Stopped(TransportFailed)
    ensures end == Finished ==> FullBatch(db, f, db')
  {
    BoundsArePage(ids, f.offset, f.limit);
    if end.Stopped? {
      ListedArePending(db, f, ids);
      hide IsListing, ReplayedPrefix;
      assert page[replayed] in ids;
    } else {
      CompletedBatchIsFull(db, f, ids, clock, db');
    }
  }

  lemma ListedArePending(db: Db, f: ListFilter, ids: seq<string>)
    requires IsListing(db, f, ids) && f.status == "pending"
    ensures forall id | id in ids :: id in db && db[id].status == Pending
  {
  }

  lemma NonePosted(db: Db, page: seq<string>, posts: seq<Post>)
    ensures PostedPrefix(db, page, 0, posts, posts)
  {
  }

  /** One more replay posts the next record of the page, unless it was refused without a post. */
  lemma PostNext<T>(db: Db, page: seq<string>, n: nat, clock: nat -> Time, before: Db, first: seq<Post>,
          sent: seq<Post>,
                    r: Result<T, DlqError>, posts: seq<Post>)
    requires ReplayedPrefix(db, page, n, clock, before) && n < |page| && NoDup(page) && page[n] in db
    requires PostedPrefix(db, page, n, first, sent)
    requires var id := page[n];
             posts == sent + if id in before && before[id].status == Pending
                             then [Post(before[id].envelope.eventSourceUrl, before[id].payload, before[id].headers,
                                 r.Ok?)]
                             else []
    requires var id := page[n];
             if r.Ok? then id in before && before[id].status == Pending
             else r.error == if id !in before then NotFound
                             else if before[id].status == Pending then TransportFailed else InvalidTransition
    ensures |sent| == |first| + n
    ensures r.Ok? ==> PostedPrefix(db, page, n + 1, first, posts)
    ensures r.Err? && r.error == TransportFailed ==>
              && |posts| == |sent| + 1 && posts[..|sent|] == sent
              && posts[|sent|] == Post(db[page[n]].envelope.eventSourceUrl, db[page[n]].payload, db[page[n]].headers,
                  false)
    ensures r.Err? && r.error != TransportFailed ==> posts == sent
  {
    assert page[n] !in page[..n];
    assert before[page[n]] == db[page[n]];
  }

  lemma NoneReplayed(db: Db, page: seq<string>, clock: nat -> Time)
    ensures ReplayedPrefix(db, page, 0, clock, db)
  {
  }

  lemma NoneResolved(db: Db, ids: seq<string>, resolver: string, clock: nat -> Time)
    ensures ResolvedPrefix(db, ids, 0, resolver, clock, db)
  {
  }

  lemma ArgumentValues(payload: array?<byte>, headers: HeaderMap?, cargo: set<object>)
    requires HeadersWithin(headers, cargo)
    ensures PayloadValue(payload) == if payload == null then None else Some(payload[..])
    ensures HeaderValue(headers, cargo) == if headers == null then None
                                           else Some(map k | k in headers.lists :: headers.lists[k][..])
  {
  }

  lemma EventParts(e: DLQEvent)
    requires e.Valid()
    ensures HeadersWithin(e.headers, e.cargo)
    ensures e.Value().envelope == e.envelope
    ensures e.Value().payload == if e.payload == null then None else Some(e.payload[..])
    ensures e.Value().headers == if e.headers == null then None
                                 else Some(map k | k in e.headers.lists :: e.headers.lists[k][..])
  {
  }

  /** The effect of an ingest in terms of the record fields. */
  lemma IngestSays(db: Db, maxRetries: int, a: Arrival, freshId: string, now: Time, db': Db, result: Record)
    requires IngestEffect(db, maxRetries, a, freshId, now, db', result)
    ensures var e, digest := a.envelope, a.payloadHash;
            if exists id :: id in db && db[id].envelope.sensorName == e.sensorName
                            && db[id].envelope.failedTrigger == e.failedTrigger && db[id].payloadHash == digest
            then
              exists id :: && id in db && db[id].envelope.sensorName == e.sensorName
                           && db[id].envelope.failedTrigger == e.failedTrigger && db[id].payloadHash == digest
                           && db' == db[id := result]
                           && result == if db[id].status == Resolved then db[id]
                                        else db[id].(retryCount := db[id].retryCount + 1, updatedAt := now,
                                                     status := if db[id].retryCount + 1 >= db[id].maxRetries
                                                               then Poisoned else Pending)
            else
              && db' == db[freshId := result]
              && result == Record(freshId, e, a.payload, digest, a.headers, Pending, 0,
                                  if maxRetries < 1 then 3 else maxRetries, None, None, "", "", now, now)
  {
    forall id | id in db
      ensures KeyOf(db[id]) == ArrivalKey(a) <==>
              db[id].envelope.sensorName == a.envelope.sensorName
              && db[id].envelope.failedTrigger == a.envelope.failedTrigger && db[id].payloadHash == a.payloadHash
    {
    }
    if HasKey(db, ArrivalKey(a)) {
      var id :| id in db && KeyOf(db[id]) == ArrivalKey(a)
                && result == Settled(db[id], ReIngestOf(db[id], now)) && db' == db[id := result];
      assert db' == db[id := result];
    }
  }

  lemma CreationEffect(db: Db, maxRetries: int, a: Arrival, freshId: string, now: Time)
    requires forall id | id in db :: KeyOf(db[id]) != ArrivalKey(a)
    ensures var result := Creation(maxRetries, a, freshId, now);
            IngestEffect(db, maxRetries, a, freshId, now, db[freshId := result], result)
  {
  }

  lemma DuplicateEffect(db: Db, maxRetries: int, a: Arrival, freshId: string, now: Time, id: string)
    requires id in db && KeyOf(db[id]) == ArrivalKey(a)
    ensures var result := Settled(db[id], ReIngestOf(db[id], now));
            IngestEffect(db, maxRetries, a, freshId, now, db[id := result], result)
    ensures db[id := db[id]] == db
  {
  }
}
