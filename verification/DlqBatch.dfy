/** What the batch operations do to the store, and how repeated batches drain it. */
module DlqBatch {
  import opened Wrappers
  import opened Arithmetic
  import opened Ordering
  import opened DlqDomain
  import opened DlqRepository
  import opened DlqLifecycle

  /** Exactly the first `n` of the distinct identifiers `ids` were replayed, each from pending. */
  ghost predicate ReplayedPrefix(db: Db, ids: seq<string>, n: nat, clock: nat -> Time, db': Db) {
    && n <= |ids|
    && db'.Keys == db.Keys
    && (forall i | 0 <= i < n :: ids[i] in db && ReplayOf(db[ids[i]], clock(i)) == Ok(db'[ids[i]]))
    && (forall id | id in db && id !in ids[..n] :: db'[id] == db[id])
  }

  /** Exactly the first `n` identifiers, which are then distinct, were resolved. */
  ghost predicate ResolvedPrefix(db: Db, ids: seq<string>, n: nat, resolver: string, clock: nat -> Time, db': Db) {
    && n <= |ids| && NoDup(ids[..n])
    && db'.Keys == db.Keys
    && (forall i | 0 <= i < n :: ids[i] in db && ResolveOf(db[ids[i]], resolver, clock(i)) == Ok(db'[ids[i]]))
    && (forall id | id in db && id !in ids[..n] :: db'[id] == db[id])
  }

  /** One more call of a batch replay: it extends the prefix, or fails for the reason the first
      untouched record's original status gives. */
  lemma ReplayNext(db: Db, ids: seq<string>, n: nat, clock: nat -> Time, before: Db, delivered: bool, after: Db)
    requires ReplayedPrefix(db, ids, n, clock, before) && n < |ids| && NoDup(ids) && ids[n] in db
    requires after == Written(before, ids[n], ReplayResult(before, ids[n], delivered, clock(n)))
    ensures var r := ReplayResult(before, ids[n], delivered, clock(n));
            if r.Ok? then ReplayedPrefix(db, ids, n + 1, clock, after)
            else after == before && r.error == if db[ids[n]].status == Pending then TransportFailed
                else InvalidTransition
  {
    assert ids[n] !in ids[..n];
    assert before[ids[n]] == db[ids[n]];
    var r := ReplayResult(before, ids[n], delivered, clock(n));
    hide IsListing;
    if r.Ok? {
      ReplayExtends(db, ids, n, clock, before, r.value);
    }
  }

  lemma ReplayExtends(db: Db, ids: seq<string>, n: nat, clock: nat -> Time, before: Db, sent: Record)
    requires ReplayedPrefix(db, ids, n, clock, before) && n < |ids| && NoDup(ids) && ids[n] in db
    requires db[ids[n]].status == Pending && ReplayOf(db[ids[n]], clock(n)) == Ok(sent)
    ensures ReplayedPrefix(db, ids, n + 1, clock, before[ids[n] := sent])
  {
    hide ReplayOf, NoDup;
    NotAmongEarlier(ids, n);
    var after := before[ids[n] := sent];
    forall i | 0 <= i < n + 1
      ensures ids[i] in db && ReplayOf(db[ids[i]], clock(i)) == Ok(after[ids[i]])
    {
      if i < n {
        assert ids[i] in ids[..n];
      }
    }
    assert ids[..n + 1] == ids[..n] + [ids[n]];
  }

  lemma NotAmongEarlier(ids: seq<string>, n: nat)
    requires NoDup(ids) && n < |ids|
    ensures ids[n] !in ids[..n]
  {
  }

  lemma ResolveNext(db: Db, ids: seq<string>, n: nat, resolver: string, clock: nat -> Time, before: Db, after: Db)
    requires ResolvedPrefix(db, ids, n, resolver, clock, before) && n < |ids|
    requires after == Written(before, ids[n], ResolveResult(before, ids[n], resolver, clock(n)))
    ensures var r := ResolveResult(before, ids[n], resolver, clock(n));
            if r.Ok? then ResolvedPrefix(db, ids, n + 1, resolver, clock, after) else after == before
  {
    var r := ResolveResult(before, ids[n], resolver, clock(n));
    if r.Ok? {
      assert forall i | 0 <= i < n :: before[ids[i]].status == Resolved;
      assert ids[n] !in ids[..n];
      ResolveExtends(db, ids, n, resolver, clock, before, r.value);
    }
  }

  lemma ResolveExtends(db: Db, ids: seq<string>, n: nat, resolver: string, clock: nat -> Time, before: Db,
          closed: Record)
    requires ResolvedPrefix(db, ids, n, resolver, clock, before) && n < |ids| && ids[n] in db && ids[n] !in ids[..n]
    requires ResolveOf(db[ids[n]], resolver, clock(n)) == Ok(closed)
    ensures ResolvedPrefix(db, ids, n + 1, resolver, clock, before[ids[n] := closed])
  {
    hide ResolveOf;
    assert ids[..n + 1] == ids[..n] + [ids[n]];
  }

  // ---------------------------------------------------------------- draining the queue

  function MatchSet(db: Db, f: ListFilter): set<string> {
    set id | id in db && Matches(db[id], f)
  }

  /** The record was sent at some time and changed in no other way. */
  ghost predicate Sent(e: Record, e': Record) {
    e.status == Pending && exists now :: ReplayOf(e, now) == Ok(e')
  }

  /** One batch replay that met no transport failure. */
  ghost predicate FullBatch(db: Db, f: ListFilter, db': Db)
    requires 0 <= f.offset && 0 <= f.limit
  {
    exists ids :: FullBatchOf(db, f, ids, db')
  }

  ghost predicate FullBatchOf(db: Db, f: ListFilter, ids: seq<string>, db': Db)
    requires 0 <= f.offset && 0 <= f.limit
  {
    var page := PageOf(ids, f.offset, f.limit);
    && IsListing(db, f, ids)
    && db'.Keys == db.Keys
    && forall id | id in db :: if id in page then Sent(db[id], db'[id]) else db'[id] == db[id]
  }

  /** A batch replay that reports no error is a full batch. */
  lemma CompletedBatchIsFull(db: Db, f: ListFilter, ids: seq<string>, clock: nat -> Time, db': Db)
    requires 0 <= f.offset && 0 <= f.limit && IsListing(db, f, ids)
    requires ReplayedPrefix(db, PageOf(ids, f.offset, f.limit), |PageOf(ids, f.offset, f.limit)|, clock, db')
    ensures FullBatch(db, f, db')
  {
    var page := PageOf(ids, f.offset, f.limit);
    assert page[..|page|] == page;
    forall id | id in db && id in page
      ensures Sent(db[id], db'[id])
    {
      var i :| 0 <= i < |page| && page[i] == id;
      assert ReplayOf(db[page[i]], clock(i)) == Ok(db'[page[i]]);
    }
    assert FullBatchOf(db, f, ids, db');
  }

  lemma {:induction false} NoDupCard<T>(s: seq<T>)
    requires NoDup(s)
    ensures |set x | x in s| == |s|
  {
    if s != [] {
      var rest := s[..|s| - 1];
      NoDupCard(rest);
      assert (set x | x in s) == (set x | x in rest) + {s[|s| - 1]};
    }
  }

  lemma BatchTakesPage(db: Db, f: ListFilter, ids: seq<string>, db': Db)
    requires f.status == "pending" && 0 <= f.offset && 0 <= f.limit && FullBatchOf(db, f, ids, db')
    ensures MatchSet(db', f) == MatchSet(db, f) - set id | id in PageOf(ids, f.offset, f.limit)
  {
    var page := PageOf(ids, f.offset, f.limit);
    forall id | id in db
      ensures id in MatchSet(db', f) <==> id in MatchSet(db, f) && id !in page
    {
      if id in page {
        assert Sent(db[id], db'[id]);
      }
    }
  }

  lemma ListingSizes(db: Db, f: ListFilter, ids: seq<string>)
    requires f.offset == 0 && f.limit > 0 && IsListing(db, f, ids)
    ensures var taken := set id | id in PageOf(ids, 0, f.limit);
            && taken <= MatchSet(db, f)
            && |MatchSet(db, f) - taken| == if |MatchSet(db, f)| <= f.limit then 0 else |MatchSet(db, f)| - f.limit
  {
    var page := PageOf(ids, 0, f.limit);
    ListingIsMatchSet(db, f, ids);
    PageIsPrefix(ids, f.limit);
    hide IsListing, MatchSet, PageOf;
    NoDupCard(ids);
    NoDupCard(page);
    var all, taken := set id | id in ids, set id | id in page;
    assert taken <= all;
    assert |all - taken| == |all| - |taken|;
  }

  lemma ListingIsMatchSet(db: Db, f: ListFilter, ids: seq<string>)
    requires IsListing(db, f, ids)
    ensures (set id | id in ids) == MatchSet(db, f) && NoDup(ids)
  {
  }

  lemma PageIsPrefix(ids: seq<string>, limit: nat)
    requires limit > 0 && NoDup(ids)
    ensures var page := PageOf(ids, 0, limit);
            |page| == (if |ids| <= limit then |ids| else limit) && NoDup(page) && forall id | id in page :: id in ids
  {
  }

  /** A full pending batch takes the first `limit` listed records out of the matching set and
      touches nothing else. */
  lemma FullBatchShrinks(db: Db, f: ListFilter, db': Db)
    requires f.status == "pending" && f.offset == 0 && f.limit > 0 && FullBatch(db, f, db')
    ensures MatchSet(db', f) <= MatchSet(db, f)
    ensures |MatchSet(db', f)| == if |MatchSet(db, f)| <= f.limit then 0 else |MatchSet(db, f)| - f.limit
    ensures db'.Keys == db.Keys && forall id | id in db
            && id !in MatchSet(db, f) - MatchSet(db', f) :: db'[id] == db[id]
    ensures forall id | id in MatchSet(db, f) - MatchSet(db', f) :: Sent(db[id], db'[id])
  {
    var ids :| FullBatchOf(db, f, ids, db');
    FullBatchDiff(db, f, ids, db');
    ListingSizes(db, f, ids);
  }

  lemma FullBatchDiff(db: Db, f: ListFilter, ids: seq<string>, db': Db)
    requires f.status == "pending" && f.offset == 0 && f.limit > 0 && FullBatchOf(db, f, ids, db')
    ensures MatchSet(db', f) == MatchSet(db, f) - set id | id in PageOf(ids, 0, f.limit)
    ensures db'.Keys == db.Keys && forall id | id in db
            && id !in MatchSet(db, f) - MatchSet(db', f) :: db'[id] == db[id]
    ensures forall id | id in MatchSet(db, f) - MatchSet(db', f) :: Sent(db[id], db'[id])
  {
    BatchTakesPage(db, f, ids, db');
    ListingSizes(db, f, ids);
    hide MatchSet, IsListing, PageOf, Sent;
    var page := PageOf(ids, 0, f.limit);
    forall id
      ensures id in MatchSet(db, f) - MatchSet(db', f) <==> id in page
    {
      assert id in page <==> id in set x | x in page;
    }
  }

  ghost predicate Batches(dbs: seq<Db>, f: ListFilter)
    requires 0 <= f.offset && 0 <= f.limit
  {
    forall i | 0 <= i < |dbs| - 1 :: FullBatch(dbs[i], f, dbs[i + 1])
  }

  /** With a transport that accepts every post, ceil(m / limit) batches leave none of the m
      matching pending records, and one batch fewer does not. */
  lemma BatchesDrain(dbs: seq<Db>, f: ListFilter)
    requires f.status == "pending" && f.offset == 0 && f.limit > 0
    requires |dbs| > 0 && Batches(dbs, f)
    ensures var calls, m := |dbs| - 1, |MatchSet(dbs[0], f)|;
            MatchSet(dbs[calls], f) == {} <==> calls >= CeilDiv(m, f.limit)
  {
    Remaining(dbs, f, |dbs| - 1);
    CeilDivBound(|MatchSet(dbs[0], f)|, f.limit, |dbs| - 1);
  }

  lemma {:induction false} Remaining(dbs: seq<Db>, f: ListFilter, k: nat)
    requires f.status == "pending" && f.offset == 0 && f.limit > 0
    requires k < |dbs| && Batches(dbs, f)
    ensures var m := |MatchSet(dbs[0], f)|;
            |MatchSet(dbs[k], f)| == if m <= k * f.limit then 0 else m - k * f.limit
  {
    if k > 0 {
      Remaining(dbs, f, k - 1);
      FullBatchShrinks(dbs[k - 1], f, dbs[k]);
      assert k * f.limit == (k - 1) * f.limit + f.limit;
    }
  }
}
