/** A replay posts the payload that the pipeline then carries: what the dead-letter service promises of its
    calls makes them steps of the end-to-end model, and the messages those steps send are the posted ones. */
module ReplayDelivery {
  import opened Wrappers
  import opened Ordering
  import opened DlqDomain
  import opened DlqRepository
  import opened DlqBatch
  import opened DlqService
  import opened EndToEnd
  import D = DlqLifecycle

  /** The payloads of the posts the transport took. */
  function Taken(posts: seq<Post>): multiset<Payload> {
    if posts == [] then multiset{}
    else
      var p := posts[|posts| - 1];
      Taken(posts[..|posts| - 1])
      + if p.delivered then multiset{if p.payload.Some? then p.payload.value else []} else multiset{}
  }

  lemma TakenAppend(posts: seq<Post>, p: Post)
    ensures Taken(posts + [p])
            == Taken(posts) + if p.delivered then multiset{if p.payload.Some? then p.payload.value else []}
                else multiset{}
  {
    assert (posts + [p])[..|posts|] == posts;
  }

  /** What `ReplayEvent` promises is a step: the message it puts on its way is the payload it posted. */
  lemma ReplayEventIsStep(cfg: Config, w: World, id: string, now: Time, accepted: bool, posts: seq<Post>, db': Db)
    returns (w': World)
    requires var db := w.dlq.db;
             if accepted then
               && id in db && db[id].status == Pending
               && db' == db[id := db[id].(status := Replayed, lastReplayedAt := Some(now), updatedAt := now)]
             else db' == db
    requires var db := w.dlq.db;
             posts == if id in db && db[id].status == Pending
                      then [Post(db[id].envelope.eventSourceUrl, db[id].payload, db[id].headers, accepted)] else []
    ensures Step(cfg, w, Operate(D.Replay(id, accepted, now)), w')
    ensures w'.dlq.db == db' && w'.queue == w.queue + Taken(posts)
  {
    hide Taken;
    var r := D.ReplayResult(w.dlq.db, id, accepted, now);
    var dlq' := D.State(D.Written(w.dlq.db, id, r), D.Logged(w.dlq.log, id, D.Sent, r));
    TakenOfOne(posts);
    if accepted {
      assert |dlq'.log| == |w.dlq.log| + 1;
      var p := PayloadOf(w.dlq.db[id]);
      w' := w.(dlq := dlq', queue := w.queue + multiset{p}, lost := w.lost - {p});
    } else {
      w' := w;
    }
  }

  lemma TakenOfOne(posts: seq<Post>)
    requires |posts| <= 1
    ensures Taken(posts) == if posts != [] && posts[0].delivered
                            then multiset{if posts[0].payload.Some? then posts[0].payload.value else []} else multiset{}
  {
    if posts != [] {
      assert posts == [] + [posts[0]];
      TakenAppend([], posts[0]);
    }
  }

  /** What `BatchReplay` promises is one such step per record of the page. */
  lemma {:induction false} BatchReplayIsRun(cfg: Config, w: World, page: seq<string>, n: nat, clock: nat -> Time,
          before: seq<Post>, posts: seq<Post>, db': Db) returns (ws: seq<World>)
    requires n <= |page| && NoDup(page) && ReplayedPrefix(w.dlq.db, page, n, clock, db')
    requires PostedPrefix(w.dlq.db, page, n, before, posts)
    ensures |ws| == n + 1 && ws[0] == w && ws[n].dlq.db == db'
    ensures forall i | 0 <= i < n :: Step(cfg, ws[i], Operate(D.Replay(page[i], true, clock(i))), ws[i + 1])
    ensures ws[n].queue == w.queue + Taken(posts[|before|..])
    decreases n
  {
    hide Step, ReplayedPrefix, PostedPrefix, Taken;
    if n == 0 {
      NothingReplayed(w.dlq.db, page, clock, before, posts, db');
      TakenOfOne([]);
      ws := [w];
    } else {
      var db := LastReplay(w.dlq.db, page, n, clock, db');
      LastPost(w.dlq.db, page, n, before, posts);
      var k := |posts| - 1;
      ws := BatchReplayIsRun(cfg, w, page, n - 1, clock, before, posts[..k], db);
      var w' := ReplayEventIsStep(cfg, ws[n - 1], page[n - 1], clock(n - 1), true, [posts[k]], db');
      SplitLast(posts, |before|);
      TakenAppend(posts[..k][|before|..], posts[k]);
      TakenOfOne([posts[k]]);
      ws := ws + [w'];
    }
  }

  lemma NothingReplayed(db: Db, page: seq<string>, clock: nat -> Time, before: seq<Post>, posts: seq<Post>, db': Db)
    requires ReplayedPrefix(db, page, 0, clock, db') && PostedPrefix(db, page, 0, before, posts)
    ensures db' == db && posts[|before|..] == []
  {
    assert page[..0] == [];
  }

  lemma SplitLast(posts: seq<Post>, k: nat)
    requires k < |posts|
    ensures posts[k..] == posts[..|posts| - 1][k..] + [posts[|posts| - 1]]
  {
  }

  /** The store before the last replay of the prefix. */
  lemma LastReplay(first: Db, page: seq<string>, n: nat, clock: nat -> Time, last: Db) returns (db: Db)
    requires 0 < n <= |page| && NoDup(page) && ReplayedPrefix(first, page, n, clock, last)
    ensures ReplayedPrefix(first, page, n - 1, clock, db)
    ensures var id := page[n - 1];
            && id in first && id in db && db[id] == first[id] && db[id].status == Pending
            && last == db[id := db[id].(status := Replayed, lastReplayedAt := Some(clock(n - 1)),
                                        updatedAt := clock(n - 1))]
  {
    hide ReplayOf, NoDup;
    var id := page[n - 1];
    db := last[id := first[id]];
    Accepted(first[id], clock(n - 1), last[id]);
    ShorterPrefix(first, page, n, clock, last, db);
  }

  lemma ShorterPrefix(first: Db, page: seq<string>, n: nat, clock: nat -> Time, last: Db, db: Db)
    requires 0 < n <= |page| && NoDup(page) && ReplayedPrefix(first, page, n, clock, last)
    requires page[n - 1] in first && db == last[page[n - 1] := first[page[n - 1]]]
    ensures ReplayedPrefix(first, page, n - 1, clock, db)
  {
    hide ReplayOf, NoDup;
    var id := page[n - 1];
    NotAmongEarlier(page, n - 1);
    assert page[..n] == page[..n - 1] + [id];
    forall x | x in first && x !in page[..n - 1]
      ensures db[x] == first[x]
    {
      assert x != id ==> x !in page[..n];
    }
    forall i | 0 <= i < n - 1
      ensures page[i] in first && ReplayOf(first[page[i]], clock(i)) == Ok(db[page[i]])
    {
      assert page[..n - 1][i] == page[i];
    }
  }

  lemma Accepted(e: Record, now: Time, e': Record)
    requires ReplayOf(e, now) == Ok(e')
    ensures e.status == Pending && e' == e.(status := Replayed, lastReplayedAt := Some(now), updatedAt := now)
  {
  }

  lemma LastPost(first: Db, page: seq<string>, n: nat, before: seq<Post>, posts: seq<Post>)
    requires 0 < n <= |page| && PostedPrefix(first, page, n, before, posts)
    ensures |posts| == |before| + n && PostedPrefix(first, page, n - 1, before, posts[..|posts| - 1])
    ensures page[n - 1] in first
    ensures var e := first[page[n - 1]];
            posts[|posts| - 1] == Post(e.envelope.eventSourceUrl, e.payload, e.headers, true)
  {
    var shorter := posts[..|posts| - 1];
    assert shorter[..|before|] == posts[..|before|];
    assert forall j | 0 <= j < |shorter| :: shorter[j] == posts[j];
    assert posts[|before| + (n - 1)] == posts[|posts| - 1];
  }
}
