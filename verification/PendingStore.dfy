/** Pending-review reconciliation of the product page, over Redis lists and sets.

    Reconciling walks a snapshot of the list and removes confirmed entries from the live list by
    value, first occurrence. The code never says why that hits the visited entry; the invariant
    of `ReconcilePending` does. */
module PendingStore {
  import opened Wrappers
  import opened Ordering

  datatype Review = Review(reviewer: string, text: string, stars: int, timestamp: int)
  datatype ConfirmedReview = ConfirmedReview(reviewer: string, text: string)

  type Decoder = string -> Option<Review>

  const NUL: char := '\0'
  const PENDING_PREFIX: string := "pending:reviews:"
  const DELETING_PREFIX: string := "deleting:reviews:"

  function MatchKey(reviewer: string, text: string): string {
    reviewer + [NUL] + text
  }

  function EntryKey(decode: Decoder, raw: string): Option<string> {
    match decode(raw)
    case None => None
    case Some(r) => Some(MatchKey(r.reviewer, r.text))
  }

  function KeysOf(confirmed: seq<ConfirmedReview>): set<string> {
    set c | c in confirmed :: MatchKey(c.reviewer, c.text)
  }

  // ---------------------------------------------------------------- what a reconciliation leaves

  /** `LREM key 1 value`. */
  function RemoveFirst(s: seq<string>, v: string): seq<string> {
    if s == [] then [] else if s[0] == v then s[1..] else [s[0]] + RemoveFirst(s[1..], v)
  }

  predicate IsConfirmed(decode: Decoder, raw: string, confirmed: set<string>) {
    var k := EntryKey(decode, raw); k.Some? && k.value in confirmed
  }

  /** The entry is the first of its key, and the key is confirmed. */
  ghost predicate IsConsumed(decode: Decoder, entries: seq<string>, confirmed: set<string>, i: nat)
    requires i < |entries|
  {
    IsConfirmed(decode, entries[i], confirmed)
    && forall j :: 0 <= j < i ==> EntryKey(decode, entries[j]) != EntryKey(decode, entries[i])
  }

  /** The entries that are not the first of a confirmed key, in order. */
  ghost function Survivors(decode: Decoder, entries: seq<string>, confirmed: set<string>): seq<string> {
    if entries == [] then []
    else
      var n := |entries| - 1;
      Survivors(decode, entries[..n], confirmed) + if IsConsumed(decode, entries, confirmed, n) then []
          else [entries[n]]
  }

  function Decoded(decode: Decoder, entries: seq<string>): seq<Review> {
    if entries == [] then []
    else
      var n := |entries| - 1;
      Decoded(decode, entries[..n]) + match decode(entries[n]) case None => [] case Some(r) => [r]
  }

  lemma SurvivorsExtend(decode: Decoder, entries: seq<string>, confirmed: set<string>, i: nat)
    requires i < |entries|
    ensures Survivors(decode, entries[..i + 1], confirmed)
            == Survivors(decode, entries[..i], confirmed) + if IsConsumed(decode, entries, confirmed, i) then []
                else [entries[i]]
  {
    var prefix := entries[..i + 1];
    assert prefix[..i] == entries[..i];
    assert IsConsumed(decode, prefix, confirmed, i) <==> IsConsumed(decode, entries, confirmed, i);
  }

  lemma {:induction false} SurvivorsAreEntries(decode: Decoder, entries: seq<string>, confirmed: set<string>)
    ensures forall raw :: raw in Survivors(decode, entries, confirmed) ==> raw in entries
  {
    if entries != [] {
      SurvivorsAreEntries(decode, entries[..|entries| - 1], confirmed);
    }
  }

  lemma {:induction false} RemoveAfter(a: seq<string>, v: string, b: seq<string>)
    requires v !in a
    ensures RemoveFirst(a + [v] + b, v) == a + b
  {
    if a == [] {
      assert a + [v] + b == [v] + b;
      assert a + b == b;
    } else {
      assert (a + [v] + b)[1..] == a[1..] + [v] + b;
      RemoveAfter(a[1..], v, b);
    }
  }

  /** Removing a consumed entry by value removes exactly the visited position: no earlier survivor
      equals it, for it would have the same key and the key would have been consumed before. */
  lemma RemovalHitsVisited(decode: Decoder, entries: seq<string>, confirmed: set<string>, i: nat)
    requires i < |entries| && IsConsumed(decode, entries, confirmed, i)
    ensures RemoveFirst(Survivors(decode, entries[..i], confirmed) + entries[i..], entries[i])
            == Survivors(decode, entries[..i + 1], confirmed) + entries[i + 1..]
  {
    var kept := Survivors(decode, entries[..i], confirmed);
    SurvivorsAreEntries(decode, entries[..i], confirmed);
    assert entries[i] !in kept by {
      assert forall j :: 0 <= j < i ==> entries[j] != entries[i];
    }
    assert kept + entries[i..] == kept + [entries[i]] + entries[i + 1..];
    RemoveAfter(kept, entries[i], entries[i + 1..]);
    SurvivorsExtend(decode, entries, confirmed, i);
  }

  lemma DecodedExtend(decode: Decoder, entries: seq<string>, raw: string)
    ensures Decoded(decode, entries + [raw])
            == Decoded(decode, entries) + match decode(raw) case None => [] case Some(r) => [r]
  {
    assert (entries + [raw])[..|entries|] == entries;
  }

  /** The confirmed keys no entry before position `i` has used up. */
  ghost function Unused(decode: Decoder, entries: seq<string>, confirmed: set<string>, i: nat): set<string>
    requires i <= |entries|
  {
    set k | k in confirmed && forall j :: 0 <= j < i ==> EntryKey(decode, entries[j]) != Some(k)
  }

  /** The list as it stands when position `i` is visited: what survived before it, and the rest. */
  ghost function LiveAt(decode: Decoder, entries: seq<string>, confirmed: set<string>, i: nat): seq<string>
    requires i <= |entries|
  {
    Survivors(decode, entries[..i], confirmed) + entries[i..]
  }

  ghost function DecodedAt(decode: Decoder, entries: seq<string>, confirmed: set<string>, i: nat): seq<Review>
    requires i <= |entries|
  {
    Decoded(decode, Survivors(decode, entries[..i], confirmed))
  }

  /** An entry is consumed exactly when its key is still unused, and consuming it uses the key up. */
  lemma UnusedStep(decode: Decoder, entries: seq<string>, confirmed: set<string>, i: nat)
    requires i < |entries|
    ensures var key, left := EntryKey(decode, entries[i]), Unused(decode, entries, confirmed, i);
            && (IsConsumed(decode, entries, confirmed, i) <==> key.Some? && key.value in left)
            && Unused(decode, entries, confirmed, i + 1) == if key.Some? then left - {key.value} else left
  {
    hide EntryKey;
  }

  lemma FirstVisit(decode: Decoder, entries: seq<string>, confirmed: set<string>)
    ensures LiveAt(decode, entries, confirmed, 0) == entries
    ensures Unused(decode, entries, confirmed, 0) == confirmed
    ensures DecodedAt(decode, entries, confirmed, 0) == []
    ensures entries == [] ==> Survivors(decode, entries, confirmed) == [] && Decoded(decode, entries) == []
  {
    assert entries[..0] == [] && entries[0..] == entries;
  }

  lemma AllVisited(decode: Decoder, entries: seq<string>, confirmed: set<string>)
    ensures LiveAt(decode, entries, confirmed, |entries|) == Survivors(decode, entries, confirmed)
    ensures DecodedAt(decode, entries, confirmed, |entries|) == Decoded(decode, Survivors(decode, entries, confirmed))
  {
    assert entries[..|entries|] == entries && entries[|entries|..] == [];
  }

  /** One visit: an entry whose key is unused and confirmed is removed by value and uses the key up;
      any other entry stays, and is returned if it decodes. */
  lemma Visit(decode: Decoder, entries: seq<string>, confirmed: set<string>, i: nat)
    requires i < |entries|
    ensures var key, left := EntryKey(decode, entries[i]), Unused(decode, entries, confirmed, i);
            if key.Some? && key.value in left then
              && LiveAt(decode, entries, confirmed, i + 1)
                  == RemoveFirst(LiveAt(decode, entries, confirmed, i), entries[i])
              && Unused(decode, entries, confirmed, i + 1) == left - {key.value}
              && DecodedAt(decode, entries, confirmed, i + 1) == DecodedAt(decode, entries, confirmed, i)
            else
              && LiveAt(decode, entries, confirmed, i + 1) == LiveAt(decode, entries, confirmed, i)
              && Unused(decode, entries, confirmed, i + 1) == left
              && DecodedAt(decode, entries, confirmed, i + 1) == DecodedAt(decode, entries, confirmed, i)
                 + match decode(entries[i]) case None => [] case Some(r) => [r]
  {
    hide Survivors, Decoded, RemoveFirst, Unused, IsConsumed, EntryKey;
    var kept := Survivors(decode, entries[..i], confirmed);
    UnusedStep(decode, entries, confirmed, i);
    SurvivorsExtend(decode, entries, confirmed, i);
    if IsConsumed(decode, entries, confirmed, i) {
      RemovalHitsVisited(decode, entries, confirmed, i);
      assert kept + [] == kept;
    } else {
      DecodedExtend(decode, kept, entries[i]);
      assert entries[i..] == [entries[i]] + entries[i + 1..];
    }
  }

  // ---------------------------------------------------------------- what is taken, review by review

  ghost predicate SamePair(decode: Decoder, raw: string, reviewer: string, text: string) {
    var r := decode(raw); r.Some? && r.value.reviewer == reviewer && r.value.text == text
  }

  /** A confirmation names the reviewer and text of this entry, and no entry before it holds the same two. */
  ghost predicate Leaves(decode: Decoder, entries: seq<string>, confirmed: seq<ConfirmedReview>, i: nat)
    requires i < |entries|
  {
    exists c :: && c in confirmed && SamePair(decode, entries[i], c.reviewer, c.text)
                && forall j :: 0 <= j < i ==> !SamePair(decode, entries[j], c.reviewer, c.text)
  }

  ghost predicate NulFree(decode: Decoder, raw: string) {
    var r := decode(raw); r.Some? ==> NUL !in r.value.reviewer && NUL !in r.value.text
  }

  /** Exactly the entries that leave are gone, and the others are in their order. An entry whose pair holds a
      NUL is not covered: another pair can have its match key (`MatchKeyIsUniqueIff`). */
  ghost predicate Reconciled(decode: Decoder, entries: seq<string>, confirmed: seq<ConfirmedReview>,
          stored: seq<string>) {
    exists positions :: KeptAt(decode, entries, confirmed, stored, positions)
  }

  ghost predicate KeptAt(decode: Decoder, entries: seq<string>, confirmed: seq<ConfirmedReview>, stored: seq<string>,
                         positions: seq<nat>)
  {
    && InOrder(positions, |entries|) && |positions| == |stored|
    && (forall k :: 0 <= k < |stored| ==> stored[k] == entries[positions[k]])
    && forall i: nat | i < |entries| && NulFree(decode, entries[i]) ::
         i in positions <==> !Leaves(decode, entries, confirmed, i)
  }

  /** The reviews are the decodable entries, decoded, in order. */
  ghost predicate DecodedInOrder(decode: Decoder, stored: seq<string>, reviews: seq<Review>) {
    exists positions :: DecodedAtPositions(decode, stored, reviews, positions)
  }

  ghost predicate DecodedAtPositions(decode: Decoder, stored: seq<string>, reviews: seq<Review>, positions: seq<nat>) {
    && InOrder(positions, |stored|) && |positions| == |reviews|
    && (forall k :: 0 <= k < |reviews| ==> decode(stored[positions[k]]) == Some(reviews[k]))
    && forall i: nat | i < |stored| :: i in positions <==> decode(stored[i]).Some?
  }

  /** `at` are the positions of the survivors among the first `n` entries. */
  ghost predicate SurviveAt(decode: Decoder, entries: seq<string>, confirmed: set<string>, n: nat, stored: seq<string>,
                            at: seq<nat>)
    requires n <= |entries|
  {
    && InOrder(at, n) && |at| == |stored|
    && (forall k :: 0 <= k < |at| ==> stored[k] == entries[at[k]])
    && forall i: nat | i < n :: i in at <==> !IsConsumed(decode, entries, confirmed, i)
  }

  lemma {:induction false} SurvivorsSurvive(decode: Decoder, entries: seq<string>, confirmed: set<string>, n: nat)
    returns (at: seq<nat>)
    requires n <= |entries|
    ensures SurviveAt(decode, entries, confirmed, n, Survivors(decode, entries[..n], confirmed), at)
  {
    hide IsConsumed, Survivors, SurviveAt;
    if n == 0 {
      at := [];
      NoneSurvives(decode, entries, confirmed);
    } else {
      at := SurvivorsSurvive(decode, entries, confirmed, n - 1);
      SurvivorsExtend(decode, entries, confirmed, n - 1);
      OneMoreSurvives(decode, entries, confirmed, n - 1, Survivors(decode, entries[..n - 1], confirmed), at);
      at := at + if IsConsumed(decode, entries, confirmed, n - 1) then [] else [n - 1];
    }
  }

  lemma NoneSurvives(decode: Decoder, entries: seq<string>, confirmed: set<string>)
    ensures SurviveAt(decode, entries, confirmed, 0, Survivors(decode, entries[..0], confirmed), [])
  {
  }

  lemma OneMoreSurvives(decode: Decoder, entries: seq<string>, confirmed: set<string>, n: nat, stored: seq<string>,
                        at: seq<nat>)
    requires n < |entries| && SurviveAt(decode, entries, confirmed, n, stored, at)
    ensures if IsConsumed(decode, entries, confirmed, n) then
              SurviveAt(decode, entries, confirmed, n + 1, stored + [], at + [])
            else
              SurviveAt(decode, entries, confirmed, n + 1, stored + [entries[n]], at + [n])
  {
    hide IsConsumed;
    InOrderAppend(at, n);
    assert stored + [] == stored && at + [] == at;
  }

  lemma EntriesOfOneKey(decode: Decoder, a: string, b: string)
    requires decode(b).Some? && NulFree(decode, b)
    ensures EntryKey(decode, a) == EntryKey(decode, b) <==>
              SamePair(decode, a, decode(b).value.reviewer, decode(b).value.text)
  {
    MatchKeyIsUniqueIff(decode(b).value.reviewer, decode(b).value.text);
    hide MatchKey;
  }

  lemma ConfirmedByPair(decode: Decoder, raw: string, confirmed: seq<ConfirmedReview>)
    requires decode(raw).Some? && NulFree(decode, raw)
    ensures IsConfirmed(decode, raw, KeysOf(confirmed)) <==>
              exists c :: c in confirmed && SamePair(decode, raw, c.reviewer, c.text)
  {
    MatchKeyIsUniqueIff(decode(raw).value.reviewer, decode(raw).value.text);
    hide MatchKey;
  }

  lemma LeavesIff(decode: Decoder, entries: seq<string>, confirmed: seq<ConfirmedReview>, i: nat)
    requires i < |entries| && NulFree(decode, entries[i])
    ensures Leaves(decode, entries, confirmed, i) <==> IsConsumed(decode, entries, KeysOf(confirmed), i)
  {
    if decode(entries[i]).Some? {
      ConfirmedByPair(decode, entries[i], confirmed);
      forall j | 0 <= j < i
        ensures EntryKey(decode, entries[j]) == EntryKey(decode, entries[i]) <==>
                  SamePair(decode, entries[j], decode(entries[i]).value.reviewer, decode(entries[i]).value.text)
      {
        EntriesOfOneKey(decode, entries[j], entries[i]);
      }
      hide EntryKey, IsConfirmed, KeysOf, NulFree;
    }
  }

  lemma SurvivorsReconciled(decode: Decoder, entries: seq<string>, confirmed: seq<ConfirmedReview>)
    ensures Reconciled(decode, entries, confirmed, Survivors(decode, entries, KeysOf(confirmed)))
  {
    hide IsConsumed, Leaves, NulFree, KeysOf, Survivors, InOrder;
    var keys, n := KeysOf(confirmed), |entries|;
    var positions := SurvivorsSurvive(decode, entries, keys, n);
    assert entries[..n] == entries;
    forall i: nat | i < n && NulFree(decode, entries[i])
      ensures i in positions <==> !Leaves(decode, entries, confirmed, i)
    {
      LeavesIff(decode, entries, confirmed, i);
    }
    assert KeptAt(decode, entries, confirmed, Survivors(decode, entries, keys), positions);
  }

  lemma {:induction false} DecodedIsInOrder(decode: Decoder, stored: seq<string>) returns (positions: seq<nat>)
    ensures DecodedAtPositions(decode, stored, Decoded(decode, stored), positions)
  {
    hide DecodedAtPositions, Decoded;
    if stored == [] {
      positions := [];
      NoneDecoded(decode);
    } else {
      var n := |stored| - 1;
      positions := DecodedIsInOrder(decode, stored[..n]);
      assert stored == stored[..n] + [stored[n]];
      DecodedExtend(decode, stored[..n], stored[n]);
      OneMoreDecoded(decode, stored[..n], stored[n], Decoded(decode, stored[..n]), positions);
      if decode(stored[n]).Some? {
        positions := positions + [n];
      }
    }
  }

  lemma NoneDecoded(decode: Decoder)
    ensures DecodedAtPositions(decode, [], Decoded(decode, []), [])
  {
  }

  lemma OneMoreDecoded(decode: Decoder, stored: seq<string>, raw: string, reviews: seq<Review>, positions: seq<nat>)
    requires DecodedAtPositions(decode, stored, reviews, positions)
    ensures match decode(raw)
            case None => DecodedAtPositions(decode, stored + [raw], reviews + [], positions)
            case Some(r) => DecodedAtPositions(decode, stored + [raw], reviews + [r], positions + [|stored|])
  {
    InOrderAppend(positions, |stored|);
  }

  // ---------------------------------------------------------------- the stores

  /** The Redis commands used; a missing key reads as an empty list or set. */
  class Redis {
    var lists: map<string, seq<string>>
    var sets: map<string, set<string>>

    constructor ()
      ensures lists == map[] && sets == map[]
    {
      lists, sets := map[], map[];
    }

    function List(key: string): seq<string>
      reads this
    {
      if key in lists then lists[key] else []
    }

    function Members(key: string): set<string>
      reads this
    {
      if key in sets then sets[key] else {}
    }

    method RPush(key: string, value: string)
      modifies `lists
      ensures lists == old(lists)[key := old(List(key)) + [value]]
    {
      lists := lists[key := List(key) + [value]];
    }

    method LRange(key: string) returns (entries: seq<string>)
      ensures entries == List(key)
    {
      entries := List(key);
    }

    method LRemFirst(key: string, value: string)
      modifies `lists
      ensures lists == old(lists)[key := RemoveFirst(old(List(key)), value)]
    {
      lists := lists[key := RemoveFirst(List(key), value)];
    }

    method SAdd(key: string, member: string)
      modifies `sets
      ensures sets == old(sets)[key := old(Members(key)) + {member}]
    {
      sets := sets[key := Members(key) + {member}];
    }

    /** Members come back once each, in no particular order. */
    method SMembers(key: string) returns (members: seq<string>)
      ensures forall m :: m in members <==> m in Members(key)
      ensures forall i, j :: 0 <= i < j < |members| ==> members[i] != members[j]
    {
      members := [];
      var todo := Members(key);
      while todo != {}
        invariant todo <= Members(key) && forall m :: m in members <==> m in Members(key) - todo
        invariant forall i, j :: 0 <= i < j < |members| ==> members[i] != members[j]
        decreases |todo|
      {
        var m :| m in todo;
        assert m !in members;
        members, todo := members + [m], todo - {m};
      }
    }

    method SRem(key: string, member: string)
      modifies `sets
      ensures sets == old(sets)[key := old(Members(key)) - {member}]
    {
      sets := sets[key := Members(key) - {member}];
    }
  }

  class RedisStore {
    const client: Redis
    const encode: Review -> string
    const decode: Decoder

    constructor (client: Redis, encode: Review -> string, decode: Decoder)
      ensures this.client == client && this.encode == encode && this.decode == decode
    {
      this.client, this.encode, this.decode := client, encode, decode;
    }

    method StorePending(productId: string, review: Review)
      modifies client
      ensures var key := PENDING_PREFIX + productId;
              client.lists == old(client.lists)[key := old(client.List(key)) + [encode(review)]]
      ensures client.sets == old(client.sets)
    {
      client.RPush(PENDING_PREFIX + productId, encode(review));
    }

    method StoreDeleting(productId: string, reviewId: string)
      modifies client
      ensures var key := DELETING_PREFIX + productId;
              client.sets == old(client.sets)[key := old(client.Members(key)) + {reviewId}]
      ensures client.lists == old(client.lists)
    {
      client.SAdd(DELETING_PREFIX + productId, reviewId);
    }

    /** The stored list loses exactly the first entry of each confirmed key, and what is returned
        is the decoded form of what is stored; undecodable entries stay. */
    method ReconcilePending(productId: string, confirmed: seq<ConfirmedReview>) returns (remaining: seq<Review>)
      modifies client
      ensures var key := PENDING_PREFIX + productId;
              && client.List(key) == Survivors(decode, old(client.List(key)), KeysOf(confirmed))
              && remaining == Decoded(decode, client.List(key))
              && Reconciled(decode, old(client.List(key)), confirmed, client.List(key))
              && DecodedInOrder(decode, client.List(key), remaining)
      ensures client.sets == old(client.sets)
      ensures forall other :: other != PENDING_PREFIX + productId ==> client.List(other) == old(client.List(other))
    {
      hide Survivors, Decoded, RemoveFirst, LiveAt, Unused, DecodedAt, KeysOf, Reconciled, DecodedAtPositions;
      var key := PENDING_PREFIX + productId;
      var entries := client.LRange(key);
      SurvivorsReconciled(decode, entries, confirmed);
      ghost var positions := DecodedIsInOrder(decode, Survivors(decode, entries, KeysOf(confirmed)));
      remaining := [];
      FirstVisit(decode, entries, KeysOf(confirmed));
      if |entries| == 0 {
        return;
      }
      var confirmedSet := ConfirmedSet(confirmed);
      ghost var all := confirmedSet;
      for i := 0 to |entries|
        invariant client.List(key) == LiveAt(decode, entries, all, i)
        invariant confirmedSet == Unused(decode, entries, all, i)
        invariant remaining == DecodedAt(decode, entries, all, i)
        invariant client.sets == old(client.sets)
        invariant forall other :: other != key ==> client.List(other) == old(client.List(other))
      {
        var raw := entries[i];
        Visit(decode, entries, all, i);
        var r := decode(raw);
        if r.None? {
          continue;
        }
        var matchKey := MatchKey(r.value.reviewer, r.value.text);
        if matchKey in confirmedSet {
          client.LRemFirst(key, raw);
          confirmedSet := confirmedSet - {matchKey};
        } else {
          remaining := remaining + [r.value];
        }
      }
      AllVisited(decode, entries, all);
    }

    method ConfirmedSet(confirmed: seq<ConfirmedReview>) returns (keys: set<string>)
      ensures keys == KeysOf(confirmed)
    {
      keys := {};
      for n := 0 to |confirmed|
        invariant keys == KeysOf(confirmed[..n])
      {
        assert confirmed[..n + 1] == confirmed[..n] + [confirmed[n]];
        assert KeysOf(confirmed[..n + 1])
               == KeysOf(confirmed[..n]) + {MatchKey(confirmed[n].reviewer, confirmed[n].text)};
        keys := keys + {MatchKey(confirmed[n].reviewer, confirmed[n].text)};
      }
      assert confirmed[..|confirmed|] == confirmed;
    }

    /** Identifiers the read side no longer lists are dropped; those it still lists stay and are returned. */
    method ReconcileDeleting(productId: string, confirmedIds: seq<string>) returns (stillDeleting: seq<string>)
      modifies client
      ensures var key := DELETING_PREFIX + productId;
              && client.Members(key) == (set m | m in old(client.Members(key)) && m in confirmedIds)
              && (forall m :: m in stillDeleting <==> m in client.Members(key))
              && (forall other :: other != key ==> client.Members(other) == old(client.Members(other)))
      ensures client.lists == old(client.lists)
    {
      var key := DELETING_PREFIX + productId;
      var members := client.SMembers(key);
      stillDeleting := [];
      for i := 0 to |members|
        invariant client.Members(key)
                  == (set m | m in old(client.Members(key)) && (m in confirmedIds || m !in members[..i]))
        invariant forall m :: m in stillDeleting <==> m in members[..i] && m in confirmedIds
        invariant client.lists == old(client.lists)
        invariant forall other :: other != key ==> client.Members(other) == old(client.Members(other))
      {
        assert members[..i + 1] == members[..i] + [members[i]];
        if members[i] !in confirmedIds {
          client.SRem(key, members[i]);
        } else {
          stillDeleting := stillDeleting + [members[i]];
        }
      }
      assert members[..|members|] == members;
    }
  }

  // ---------------------------------------------------------------- repeated calls

  function CountKey(decode: Decoder, entries: seq<string>, key: string): nat {
    if entries == [] then 0
    else
      var n := |entries| - 1;
      CountKey(decode, entries[..n], key) + if EntryKey(decode, entries[n]) == Some(key) then 1 else 0
  }

  lemma CountKeyExtend(decode: Decoder, entries: seq<string>, raw: string, key: string)
    ensures CountKey(decode, entries + [raw], key)
            == CountKey(decode, entries, key) + if EntryKey(decode, raw) == Some(key) then 1 else 0
  {
    assert (entries + [raw])[..|entries|] == entries;
  }

  lemma {:induction false} CountKeyZero(decode: Decoder, entries: seq<string>, key: string)
    ensures CountKey(decode, entries, key) == 0 <==> forall j ::
            0 <= j < |entries|
            ==> EntryKey(decode, entries[j]) != Some(key)
  {
    if entries != [] {
      var n := |entries| - 1;
      CountKeyZero(decode, entries[..n], key);
      assert forall j :: 0 <= j < n ==> entries[..n][j] == entries[j];
    }
  }

  /** One call takes one entry of a confirmed key that has any, and none of any other key. */
  lemma {:induction false} SurvivorsCount(decode: Decoder, entries: seq<string>, confirmed: set<string>, key: string)
    ensures CountKey(decode, Survivors(decode, entries, confirmed), key)
            == CountKey(decode, entries, key) - if key in confirmed && CountKey(decode, entries, key) > 0 then 1 else 0
  {
    if entries != [] {
      var n := |entries| - 1;
      SurvivorsCount(decode, entries[..n], confirmed, key);
      assert Survivors(decode, entries[..n], confirmed) + [] == Survivors(decode, entries[..n], confirmed);
      CountKeyExtend(decode, Survivors(decode, entries[..n], confirmed), entries[n], key);
      CountKeyZero(decode, entries[..n], key);
      assert forall j :: 0 <= j < n ==> entries[..n][j] == entries[j];
    }
  }

  ghost function Calls(decode: Decoder, entries: seq<string>, confirmed: set<string>, n: nat): seq<string> {
    if n == 0 then entries else Survivors(decode, Calls(decode, entries, confirmed, n - 1), confirmed)
  }

  /** `n` calls in a row remove min(n, multiplicity) entries of each confirmed key: a read side that
      keeps listing one review eventually clears every pending duplicate of it. */
  lemma {:induction false} CallsRemove(decode: Decoder, entries: seq<string>, confirmed: set<string>, n: nat,
          key: string)
    ensures var m := CountKey(decode, entries, key);
            CountKey(decode, Calls(decode, entries, confirmed, n), key) == if key !in confirmed then m else if n <= m
                then m - n else 0
  {
    if n > 0 {
      CallsRemove(decode, entries, confirmed, n - 1, key);
      SurvivorsCount(decode, Calls(decode, entries, confirmed, n - 1), confirmed, key);
    }
  }

  // ---------------------------------------------------------------- the match key

  ghost predicate UniquelyMatched(reviewer: string, text: string) {
    forall reviewer', text' :: MatchKey(reviewer', text') == MatchKey(reviewer, text) ==>
        reviewer' == reviewer
        && text' == text
  }

  /** A match key stands for one (reviewer, text) pair exactly when neither holds a NUL; otherwise a
      confirmation of a different pair consumes the entry. */
  lemma MatchKeyIsUniqueIff(reviewer: string, text: string)
    ensures UniquelyMatched(reviewer, text) <==> NUL !in reviewer && NUL !in text
  {
    if NUL !in reviewer && NUL !in text {
      forall reviewer', text' | MatchKey(reviewer', text') == MatchKey(reviewer, text)
        ensures reviewer' == reviewer && text' == text
      {
        var s := MatchKey(reviewer, text);
        assert forall i | 0 <= i < |s| :: s[i] == NUL ==> i == |reviewer|;
        assert s[|reviewer'|] == NUL;
        assert reviewer' == s[..|reviewer'|] && text' == s[|reviewer'| + 1..];
        assert reviewer == s[..|reviewer|] && text == s[|reviewer| + 1..];
      }
    } else if NUL in reviewer {
      var k :| 0 <= k < |reviewer| && reviewer[k] == NUL;
      var text' := reviewer[k + 1..] + [NUL] + text;
      assert MatchKey(reviewer[..k], text') == MatchKey(reviewer, text);
    } else {
      var k :| 0 <= k < |text| && text[k] == NUL;
      assert MatchKey(reviewer + [NUL] + text[..k], text[k + 1..]) == MatchKey(reviewer, text);
    }
  }
}
