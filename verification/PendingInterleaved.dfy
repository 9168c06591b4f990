/** Reconciliations of one product interleaved with each other and with new submissions.

    Every Redis command is atomic and a reconciliation issues many: its snapshot may be stale at
    each removal. `pushed` is the history of everything ever stored and `removals` says which call
    removed what. */
module PendingInterleaved {
  import opened PendingStore

  datatype Call = Call(snapshot: seq<string>, position: nat, confirmed: set<string>, left: set<string>)
  datatype Removal = Removal(call: nat, raw: string)

  datatype State = State(entries: seq<string>, calls: map<nat, Call>, pushed: seq<string>, removals: seq<Removal>)

  datatype Action =
    | Push(raw: string)
    | Begin(call: nat, confirmed: set<string>)
    | VisitNext(call: nat)

  const INITIAL: State := State([], map[], [], [])

  predicate Enabled(s: State, a: Action) {
    match a
    case Push(_) => true
    case Begin(c, _) => c !in s.calls
    case VisitNext(c) => c in s.calls && s.calls[c].position < |s.calls[c].snapshot|
  }

  /** The visited entry's key is still to be confirmed by this call. */
  predicate Removes(decode: Decoder, c: Call)
    requires c.position < |c.snapshot|
  {
    var key := EntryKey(decode, c.snapshot[c.position]);
    key.Some? && key.value in c.left
  }

  function Next(decode: Decoder, s: State, a: Action): State
    requires Enabled(s, a)
  {
    match a
    case Push(raw) => s.(entries := s.entries + [raw], pushed := s.pushed + [raw])
    case Begin(c, confirmed) => s.(calls := s.calls[c := Call(s.entries, 0, confirmed, confirmed)])
    case VisitNext(c) =>
      var call := s.calls[c];
      var raw := call.snapshot[call.position];
      if Removes(decode, call) then
        State(RemoveFirst(s.entries, raw),
              s.calls[c := call.(position := call.position + 1, left := call.left - {EntryKey(decode, raw).value})],
              s.pushed,
              if raw in s.entries then s.removals + [Removal(c, raw)] else s.removals)
      else s.(calls := s.calls[c := call.(position := call.position + 1)])
  }

  ghost predicate Run(decode: Decoder, ss: seq<State>, actions: seq<Action>) {
    && |ss| == |actions| + 1
    && ss[0] == INITIAL
    && forall i :: 0 <= i < |actions| ==> Enabled(ss[i], actions[i]) && ss[i + 1] == Next(decode, ss[i], actions[i])
  }

  // ---------------------------------------------------------------- nothing unconfirmed is touched

  /** The entries of `s` that satisfy `keep`, in order. */
  function Only(s: seq<string>, keep: string -> bool): seq<string> {
    if s == [] then [] else (if keep(s[0]) then [s[0]] else []) + Only(s[1..], keep)
  }

  lemma {:induction false} OnlyConcat(a: seq<string>, b: seq<string>, keep: string -> bool)
    ensures Only(a + b, keep) == Only(a, keep) + Only(b, keep)
  {
    hide Only;
    OnlyNone(keep);
    if a == [] {
      assert a + b == b;
    } else {
      assert a + b == [a[0]] + (a[1..] + b) && a == [a[0]] + a[1..];
      OnlyConcat(a[1..], b, keep);
      OnlyFirst(a[0], a[1..] + b, keep);
      OnlyFirst(a[0], a[1..], keep);
    }
  }

  lemma OnlyNone(keep: string -> bool)
    ensures Only([], keep) == []
  {
  }

  lemma OnlyFirst(raw: string, rest: seq<string>, keep: string -> bool)
    ensures Only([raw] + rest, keep) == (if keep(raw) then [raw] else []) + Only(rest, keep)
  {
    assert ([raw] + rest)[1..] == rest;
  }

  lemma {:induction false} OnlyRemoveFirst(s: seq<string>, v: string, keep: string -> bool)
    requires !keep(v)
    ensures Only(RemoveFirst(s, v), keep) == Only(s, keep)
  {
    if s != [] && s[0] != v {
      OnlyRemoveFirst(s[1..], v, keep);
      assert ([s[0]] + RemoveFirst(s[1..], v))[1..] == RemoveFirst(s[1..], v);
    }
  }

  /** `keep` selects only entries whose key no call has confirmed so far; undecodable entries qualify. */
  ghost predicate NeverConfirmed(decode: Decoder, s: State, keep: string -> bool) {
    forall c, raw :: c in s.calls && keep(raw) ==> !IsConfirmed(decode, raw, s.calls[c].confirmed)
  }

  ghost predicate LeftInv(s: State) {
    forall c :: c in s.calls ==> s.calls[c].left <= s.calls[c].confirmed
  }

  lemma {:induction false} RunLeft(decode: Decoder, ss: seq<State>, actions: seq<Action>, n: nat)
    requires Run(decode, ss, actions) && n < |ss|
    ensures LeftInv(ss[n])
  {
    if n > 0 {
      RunLeft(decode, ss, actions, n - 1);
    }
  }

  lemma NeverConfirmedBefore(decode: Decoder, s: State, a: Action, keep: string -> bool)
    requires Enabled(s, a) && NeverConfirmed(decode, Next(decode, s, a), keep)
    ensures NeverConfirmed(decode, s, keep)
  {
    var s' := Next(decode, s, a);
    assert forall c :: c in s.calls ==> c in s'.calls && s'.calls[c].confirmed == s.calls[c].confirmed;
  }

  /** Whatever the interleaving: the entries no call has confirmed are exactly those ever pushed, in
      the order they were pushed. None is removed, lost or reordered, also when pushed mid-call. */
  lemma {:induction false} UnconfirmedEntriesKept(decode: Decoder, ss: seq<State>, actions: seq<Action>, n: nat,
          keep: string -> bool)
    requires Run(decode, ss, actions) && n < |ss| && NeverConfirmed(decode, ss[n], keep)
    ensures Only(ss[n].entries, keep) == Only(ss[n].pushed, keep)
  {
    if n > 0 {
      var s, a := ss[n - 1], actions[n - 1];
      RunLeft(decode, ss, actions, n - 1);
      NeverConfirmedBefore(decode, s, a, keep);
      UnconfirmedEntriesKept(decode, ss, actions, n - 1, keep);
      match a {
        case Push(raw) =>
          OnlyConcat(s.entries, [raw], keep);
          OnlyConcat(s.pushed, [raw], keep);
        case Begin(_, _) =>
        case VisitNext(c) =>
          var call := s.calls[c];
          if Removes(decode, call) {
            var raw := call.snapshot[call.position];
            assert IsConfirmed(decode, raw, call.confirmed) && ss[n].calls[c].confirmed == call.confirmed;
            assert !keep(raw);
            OnlyRemoveFirst(s.entries, raw, keep);
          }
      }
    }
  }

  // ---------------------------------------------------------------- at most one removal per call and key

  lemma {:induction false} RemoveFirstMultiset(s: seq<string>, v: string)
    ensures multiset(RemoveFirst(s, v)) == if v in s then multiset(s) - multiset{v} else multiset(s)
  {
    if s != [] {
      assert s == [s[0]] + s[1..];
      if s[0] != v {
        RemoveFirstMultiset(s[1..], v);
      }
    }
  }

  function Removed(removals: seq<Removal>): multiset<string> {
    if removals == [] then multiset{} else Removed(removals[..|removals| - 1]) + multiset{removals[|removals| - 1].raw}
  }

  /** The removal was owed to a key its call was told is confirmed, and has spent. */
  ghost predicate IsOwed(decode: Decoder, s: State, r: Removal) {
    r.call in s.calls && IsConfirmed(decode, r.raw, s.calls[r.call].confirmed - s.calls[r.call].left)
  }

  ghost predicate RemovalsInv(decode: Decoder, s: State) {
    && (forall i :: 0 <= i < |s.removals| ==> IsOwed(decode, s, s.removals[i]))
    && (forall i, j :: 0 <= i < j < |s.removals| && s.removals[i].call == s.removals[j].call ==>
          EntryKey(decode, s.removals[i].raw) != EntryKey(decode, s.removals[j].raw))
  }

  ghost predicate Conserved(s: State) {
    multiset(s.pushed) == multiset(s.entries) + Removed(s.removals)
  }

  lemma ConservedStep(decode: Decoder, s: State, a: Action)
    requires Conserved(s) && Enabled(s, a)
    ensures Conserved(Next(decode, s, a))
  {
    hide RemoveFirst, EntryKey, Removed;
    if a.VisitNext? && Removes(decode, s.calls[a.call]) {
      var raw := s.calls[a.call].snapshot[s.calls[a.call].position];
      RemoveFirstMultiset(s.entries, raw);
      RemovalLogged(s.removals, Removal(a.call, raw));
    }
  }

  lemma RemovalLogged(removals: seq<Removal>, r: Removal)
    ensures Removed(removals + [r]) == Removed(removals) + multiset{r.raw}
  {
    assert (removals + [r])[..|removals|] == removals;
  }

  lemma OwedStep(decode: Decoder, s: State, a: Action, r: Removal)
    requires Enabled(s, a) && IsOwed(decode, s, r)
    ensures IsOwed(decode, Next(decode, s, a), r)
  {
  }

  lemma RemovalsStep(decode: Decoder, s: State, a: Action)
    requires LeftInv(s) && RemovalsInv(decode, s) && Enabled(s, a)
    ensures RemovalsInv(decode, Next(decode, s, a))
  {
    var s' := Next(decode, s, a);
    forall r | IsOwed(decode, s, r) { OwedStep(decode, s, a, r); }
    if a.VisitNext? && Removes(decode, s.calls[a.call]) {
      var raw := s.calls[a.call].snapshot[s.calls[a.call].position];
      assert IsOwed(decode, s', Removal(a.call, raw));
      forall i | 0 <= i < |s.removals| && s.removals[i].call == a.call
        ensures EntryKey(decode, s.removals[i].raw) != EntryKey(decode, raw)
      {
        assert IsOwed(decode, s, s.removals[i]);
      }
    }
  }

  lemma {:induction false} RunRemovals(decode: Decoder, ss: seq<State>, actions: seq<Action>, n: nat)
    requires Run(decode, ss, actions) && n < |ss|
    ensures RemovalsInv(decode, ss[n]) && Conserved(ss[n])
  {
    if n > 0 {
      RunRemovals(decode, ss, actions, n - 1);
      RunLeft(decode, ss, actions, n - 1);
      ConservedStep(decode, ss[n - 1], actions[n - 1]);
      RemovalsStep(decode, ss[n - 1], actions[n - 1]);
    }
  }

  /** Everything ever pushed is stored or was removed, once; a call removes at most one entry per key,
      and only of keys it was told are confirmed. */
  lemma OneRemovalPerCallAndKey(decode: Decoder, ss: seq<State>, actions: seq<Action>, n: nat)
    requires Run(decode, ss, actions) && n < |ss|
    ensures var s := ss[n];
            && multiset(s.pushed) == multiset(s.entries) + Removed(s.removals)
            && (forall i :: 0 <= i < |s.removals| ==>
                  s.removals[i].call in s.calls
                      && IsConfirmed(decode, s.removals[i].raw, s.calls[s.removals[i].call].confirmed))
            && (forall i, j :: 0 <= i < j < |s.removals| && s.removals[i].call == s.removals[j].call ==>
                  EntryKey(decode, s.removals[i].raw) != EntryKey(decode, s.removals[j].raw))
  {
    RunRemovals(decode, ss, actions, n);
    assert forall i :: 0 <= i < |ss[n].removals| ==> IsOwed(decode, ss[n], ss[n].removals[i]);
  }

  // ---------------------------------------------------------------- a call alone

  function VisitMany(decode: Decoder, s: State, call: nat, n: nat): (s': State)
    requires call in s.calls && s.calls[call].position + n <= |s.calls[call].snapshot|
    ensures call in s'.calls && s'.calls[call].snapshot == s.calls[call].snapshot
            && s'.calls[call].position == s.calls[call].position + n
  {
    if n == 0 then s else Next(decode, VisitMany(decode, s, call, n - 1), VisitNext(call))
  }

  /** Nothing in between, the steps of one call leave what `ReconcilePending` leaves. */
  lemma {:induction false} UninterruptedCallIsReconcile(decode: Decoder, s: State, call: nat, confirmed: set<string>,
          n: nat)
    requires call !in s.calls && n <= |s.entries|
    ensures var begun := Next(decode, s, Begin(call, confirmed));
            var after := VisitMany(decode, begun, call, n);
            after.entries == LiveAt(decode, s.entries, confirmed, n)
                && after.calls[call].left == Unused(decode, s.entries, confirmed, n)
  {
    hide LiveAt, Unused, RemoveFirst, EntryKey, DecodedAt, Next;
    CallBegins(decode, s, call, confirmed);
    if n > 0 {
      UninterruptedCallIsReconcile(decode, s, call, confirmed, n - 1);
      var before := VisitMany(decode, Next(decode, s, Begin(call, confirmed)), call, n - 1);
      OneVisit(decode, before, call, s.entries, confirmed, n - 1);
    }
  }

  lemma CallBegins(decode: Decoder, s: State, call: nat, confirmed: set<string>)
    requires call !in s.calls
    ensures var begun := Next(decode, s, Begin(call, confirmed));
            && begun.calls == s.calls[call := Call(s.entries, 0, confirmed, confirmed)]
            && begun.entries == s.entries == LiveAt(decode, s.entries, confirmed, 0)
            && confirmed == Unused(decode, s.entries, confirmed, 0)
  {
    hide LiveAt, Unused;
    FirstVisit(decode, s.entries, confirmed);
  }

  lemma OneVisit(decode: Decoder, s: State, call: nat, entries: seq<string>, confirmed: set<string>, i: nat)
    requires call in s.calls && i < |entries|
    requires s.calls[call].snapshot == entries && s.calls[call].position == i
    requires s.calls[call].left == Unused(decode, entries, confirmed, i)
    requires s.entries == LiveAt(decode, entries, confirmed, i)
    ensures var after := Next(decode, s, VisitNext(call));
            && call in after.calls && after.entries == LiveAt(decode, entries, confirmed, i + 1)
            && after.calls[call].left == Unused(decode, entries, confirmed, i + 1)
  {
    hide LiveAt, Unused, RemoveFirst, EntryKey, DecodedAt;
    Visit(decode, entries, confirmed, i);
  }
}
