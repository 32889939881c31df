/**
 `check_validity`: the replay of one (customer, offer) group. The group is put
 in time order and walked with the set of event kinds seen since the last
 completion. A completion counts when that set, the completion included, is
 exactly {received, viewed, completed}; the set is cleared after every
 completion, counted or not. A counted completion adds its reward and the
 customer's transaction total at the completion's time.
 */
module Validity {
  import opened Events
  import opened AmountStorer

  /** The kinds of a valid response episode. */
  const Expected: set<EventKind> := {Received, Viewed, Completed}

  /** The labels of a set of kinds, as the source's `event_set` holds them. */
  ghost function Labels(seen: set<EventKind>): set<string> {
    set k | k in seen :: KindLabel(k)
  }

  /** On kinds read by `KindOf`, the test `event == 'offer completed'` is the test for `Completed`. */
  lemma CompletedByLabel(k: EventKind)
    requires Canonical(k)
    ensures KindLabel(k) == "offer completed" <==> k == Completed
  {
    if KindLabel(k) == "offer completed" {
      KindLabelInjective(k, Completed);
    }
  }

  /** On kinds read by `KindOf`, `event_set == expected_event_set` compared as label sets
      agrees with the comparison of kind sets. */
  lemma ExpectedByLabels(seen: set<EventKind>)
    requires forall k :: k in seen ==> Canonical(k)
    ensures seen == Expected <==> Labels(seen) == {"offer received", "offer viewed", "offer completed"}
  {
    var want := {"offer received", "offer viewed", "offer completed"};
    if seen == Expected {
      assert KindLabel(Received) in Labels(seen) && KindLabel(Viewed) in Labels(seen) && KindLabel(Completed) in Labels(seen);
      assert Labels(seen) == want;
    }
    if Labels(seen) == want {
      forall k | k in seen ensures k in Expected {
        assert KindLabel(k) in want;
        if KindLabel(k) == "offer received" {
          KindLabelInjective(k, Received);
        } else if KindLabel(k) == "offer viewed" {
          KindLabelInjective(k, Viewed);
        } else {
          KindLabelInjective(k, Completed);
        }
      }
      forall k | k in Expected ensures k in seen {
        assert KindLabel(k) in Labels(seen);
        var x :| x in seen && KindLabel(x) == KindLabel(k);
        KindLabelInjective(x, k);
      }
    }
  }

  /** What `check_validity` returns: the valid completions, their amount and their reward. */
  datatype Totals = Totals(count: nat, amount: real, reward: real)

  /** The replay state: `event_set` and the running totals. */
  datatype Walk = Walk(seen: set<EventKind>, totals: Totals)

  const Start := Walk({}, Totals(0, 0.0, 0.0))

  // ---------------------------------------------------------------------------
  // Time order

  ghost predicate SortedByTime(s: seq<Event>) {
    forall i :: 0 <= i < |s| - 1 ==> s[i].time <= s[i + 1].time
  }

  /** Inserts `e` after every event that is not later than it, so ties keep input order. */
  function InsertByTime(e: Event, s: seq<Event>): (r: seq<Event>)
    requires SortedByTime(s)
    ensures SortedByTime(r) && |r| == |s| + 1
    ensures r[0] == e || (s != [] && r[0] == s[0])
    decreases |s|
  {
    if s == [] then [e]
    else if e.time < s[0].time then [e] + s
    else
      assert s == [s[0]] + s[1..];
      [s[0]] + InsertByTime(e, s[1..])
  }

  /** `sort_values(by='time')`, as a stable insertion sort. */
  function SortByTime(s: seq<Event>): (r: seq<Event>)
    ensures SortedByTime(r) && |r| == |s|
    decreases |s|
  {
    if s == [] then []
    else InsertByTime(s[|s| - 1], SortByTime(s[..|s| - 1]))
  }

  /** Insertion adds exactly the one event. */
  lemma {:induction false} InsertByTimePermutes(e: Event, s: seq<Event>)
    requires SortedByTime(s)
    ensures multiset(InsertByTime(e, s)) == multiset(s) + multiset{e}
    decreases |s|
  {
    if s != [] && e.time >= s[0].time {
      InsertByTimePermutes(e, s[1..]);
      assert s == [s[0]] + s[1..];
    }
  }

  /** Sorting rearranges the group and neither loses nor invents an event. */
  lemma {:induction false} SortByTimePermutes(s: seq<Event>)
    ensures multiset(SortByTime(s)) == multiset(s)
    decreases |s|
  {
    if s != [] {
      var pre := s[..|s| - 1];
      SortByTimePermutes(pre);
      InsertByTimePermutes(s[|s| - 1], SortByTime(pre));
      assert s == pre + [s[|s| - 1]];
    }
  }

  // ---------------------------------------------------------------------------
  // The replay

  /** One iteration of the loop of `check_validity`. */
  function Step(profileId: int, store: Store, w: Walk, e: Event): (r: Walk)
    ensures e.kind == Completed ==> r.seen == {}
    ensures e.kind != Completed ==> r.seen == w.seen + {e.kind} && r.totals == w.totals
    ensures r.totals.count <= w.totals.count + 1
  {
    var seen := w.seen + {e.kind};
    var t := w.totals;
    if e.kind == Completed then
      if seen == Expected then
        Walk({}, Totals(t.count + 1, t.amount + GetAmount(store, profileId, e.time), t.reward + e.reward))
      else
        Walk({}, t)
    else
      Walk(seen, t)
  }

  /** The loop run over `s` from state `w`. */
  function Replay(profileId: int, store: Store, w: Walk, s: seq<Event>): Walk
    decreases |s|
  {
    if s == [] then w else Step(profileId, store, Replay(profileId, store, w, s[..|s| - 1]), s[|s| - 1])
  }

  // ---------------------------------------------------------------------------
  // The episode reading of the replay

  /** The start of the episode holding position `i`: just after the last completion before `i`. */
  function EpisodeStart(s: seq<Event>, i: nat): (j: nat)
    requires i <= |s|
    ensures j <= i
    ensures forall k :: j <= k < i ==> s[k].kind != Completed
    ensures j > 0 ==> s[j - 1].kind == Completed
    decreases i
  {
    if i == 0 then 0 else if s[i - 1].kind == Completed then i else EpisodeStart(s, i - 1)
  }

  /** The distinct kinds among positions lo..hi-1. */
  ghost function KindsIn(s: seq<Event>, lo: nat, hi: nat): set<EventKind>
    requires lo <= hi <= |s|
  {
    set k | lo <= k < hi :: s[k].kind
  }

  /** The completion at `i` is a valid response: the kinds of its episode, itself
      included, are exactly received, viewed and completed. */
  ghost predicate Counted(s: seq<Event>, i: nat)
    requires i < |s|
  {
    s[i].kind == Completed && KindsIn(s, EpisodeStart(s, i), i + 1) == Expected
  }

  /** The totals of the valid completions among the first `n` events. */
  ghost function CountedTotals(profileId: int, store: Store, s: seq<Event>, n: nat): Totals
    requires n <= |s|
    decreases n
  {
    if n == 0 then Totals(0, 0.0, 0.0)
    else
      var t := CountedTotals(profileId, store, s, n - 1);
      if Counted(s, n - 1) then
        Totals(t.count + 1, t.amount + GetAmount(store, profileId, s[n - 1].time), t.reward + s[n - 1].reward)
      else t
  }

  lemma KindsInExtend(s: seq<Event>, lo: nat, hi: nat)
    requires lo <= hi < |s|
    ensures KindsIn(s, lo, hi + 1) == KindsIn(s, lo, hi) + {s[hi].kind}
  {
    assert s[hi].kind in KindsIn(s, lo, hi + 1);
  }

  lemma ReplayLast(profileId: int, store: Store, s: seq<Event>, n: nat)
    requires 0 < n <= |s|
    ensures Replay(profileId, store, Start, s[..n]) == Step(profileId, store, Replay(profileId, store, Start, s[..n - 1]), s[n - 1])
  {
    assert s[..n][..n - 1] == s[..n - 1];
  }

  /** The episode step at a completion: the episode closes, counted when its kinds are complete. */
  lemma EpisodeStepCounted(profileId: int, store: Store, s: seq<Event>, n: nat, w: Walk)
    requires 0 < n <= |s| && Counted(s, n - 1)
    requires w.seen + {s[n - 1].kind} == KindsIn(s, EpisodeStart(s, n - 1), n)
    requires w.totals == CountedTotals(profileId, store, s, n - 1)
    ensures Step(profileId, store, w, s[n - 1]) == Walk({}, CountedTotals(profileId, store, s, n))
  {
    var t := w.totals;
    var e := s[n - 1];
    assert Step(profileId, store, w, e)
      == Walk({}, Totals(t.count + 1, t.amount + GetAmount(store, profileId, e.time), t.reward + e.reward));
  }

  lemma EpisodeStepUncounted(profileId: int, store: Store, s: seq<Event>, n: nat, w: Walk)
    requires 0 < n <= |s| && s[n - 1].kind == Completed && !Counted(s, n - 1)
    requires w.seen + {s[n - 1].kind} == KindsIn(s, EpisodeStart(s, n - 1), n)
    requires w.totals == CountedTotals(profileId, store, s, n - 1)
    ensures Step(profileId, store, w, s[n - 1]) == Walk({}, CountedTotals(profileId, store, s, n))
  {
    assert Step(profileId, store, w, s[n - 1]) == Walk({}, w.totals);
  }

  lemma EpisodeStepCompleted(profileId: int, store: Store, s: seq<Event>, n: nat, w: Walk)
    requires 0 < n <= |s| && s[n - 1].kind == Completed
    requires w == Walk(KindsIn(s, EpisodeStart(s, n - 1), n - 1), CountedTotals(profileId, store, s, n - 1))
    ensures Step(profileId, store, w, s[n - 1]) == Walk(KindsIn(s, EpisodeStart(s, n), n), CountedTotals(profileId, store, s, n))
  {
    KindsInExtend(s, EpisodeStart(s, n - 1), n - 1);
    assert KindsIn(s, n, n) == {};
    if Counted(s, n - 1) {
      EpisodeStepCounted(profileId, store, s, n, w);
    } else {
      EpisodeStepUncounted(profileId, store, s, n, w);
    }
  }

  lemma EpisodeStepOther(profileId: int, store: Store, s: seq<Event>, n: nat, w: Walk)
    requires 0 < n <= |s| && s[n - 1].kind != Completed
    requires w == Walk(KindsIn(s, EpisodeStart(s, n - 1), n - 1), CountedTotals(profileId, store, s, n - 1))
    ensures Step(profileId, store, w, s[n - 1]) == Walk(KindsIn(s, EpisodeStart(s, n), n), CountedTotals(profileId, store, s, n))
  {
    KindsInExtend(s, EpisodeStart(s, n - 1), n - 1);
    assert !Counted(s, n - 1);
  }

  /** The replay keeps the kinds of the current episode and the totals of the valid
      completions so far. */
  lemma {:induction false} ReplayIsEpisodes(profileId: int, store: Store, s: seq<Event>, n: nat)
    requires n <= |s|
    ensures Replay(profileId, store, Start, s[..n])
      == Walk(KindsIn(s, EpisodeStart(s, n), n), CountedTotals(profileId, store, s, n))
    decreases n
  {
    if n == 0 {
      assert KindsIn(s, 0, 0) == {};
    } else {
      ReplayIsEpisodes(profileId, store, s, n - 1);
      ReplayLast(profileId, store, s, n);
      var w := Replay(profileId, store, Start, s[..n - 1]);
      if s[n - 1].kind == Completed {
        EpisodeStepCompleted(profileId, store, s, n, w);
      } else {
        EpisodeStepOther(profileId, store, s, n, w);
      }
    }
  }

  /** The number of completion events in `s`. */
  function NumCompleted(s: seq<Event>): nat
    decreases |s|
  {
    if s == [] then 0 else (if s[0].kind == Completed then 1 else 0) + NumCompleted(s[1..])
  }

  lemma {:induction false} NumCompletedAppend(a: seq<Event>, b: seq<Event>)
    ensures NumCompleted(a + b) == NumCompleted(a) + NumCompleted(b)
    decreases |a|
  {
    if a != [] {
      assert (a + b)[1..] == a[1..] + b;
      NumCompletedAppend(a[1..], b);
    } else {
      assert a + b == b;
    }
  }

  /** Sorting neither adds nor drops completions. */
  lemma {:induction false} NumCompletedInsert(e: Event, s: seq<Event>)
    requires SortedByTime(s)
    ensures NumCompleted(InsertByTime(e, s)) == NumCompleted(s) + NumCompleted([e])
    decreases |s|
  {
    if s != [] && e.time >= s[0].time {
      NumCompletedInsert(e, s[1..]);
      assert InsertByTime(e, s)[1..] == InsertByTime(e, s[1..]);
    } else if s != [] {
      assert ([e] + s)[1..] == s;
    }
  }

  lemma {:induction false} NumCompletedSort(s: seq<Event>)
    ensures NumCompleted(SortByTime(s)) == NumCompleted(s)
    decreases |s|
  {
    if s != [] {
      var pre := s[..|s| - 1];
      NumCompletedSort(pre);
      NumCompletedInsert(s[|s| - 1], SortByTime(pre));
      assert s == pre + [s[|s| - 1]];
      NumCompletedAppend(pre, [s[|s| - 1]]);
    }
  }

  /** At most one valid response per completion; no valid response means no amount and no reward. */
  lemma {:induction false} CountedTotalsBounds(profileId: int, store: Store, s: seq<Event>, n: nat)
    requires n <= |s|
    ensures CountedTotals(profileId, store, s, n).count <= NumCompleted(s[..n])
    ensures CountedTotals(profileId, store, s, n).count == 0 ==>
      CountedTotals(profileId, store, s, n).amount == 0.0 && CountedTotals(profileId, store, s, n).reward == 0.0
    decreases n
  {
    if n > 0 {
      CountedTotalsBounds(profileId, store, s, n - 1);
      assert s[..n] == s[..n - 1] + [s[n - 1]];
      NumCompletedAppend(s[..n - 1], [s[n - 1]]);
    }
  }

  /** `check_validity(profile_id, group, ...)`: the replay of the group in time order.
      Its totals are those of the valid completions of the time-ordered group; they count
      at most the group's completions, and without a valid one they are all zero. */
  function CheckValidity(profileId: int, group: seq<Event>, store: Store): (r: Totals)
    ensures r == CountedTotals(profileId, store, SortByTime(group), |group|)
    ensures r.count <= NumCompleted(group)
    ensures r.count == 0 ==> r.amount == 0.0 && r.reward == 0.0
  {
    var sorted := SortByTime(group);
    ReplayIsEpisodes(profileId, store, sorted, |sorted|);
    assert sorted[..|sorted|] == sorted;
    CountedTotalsBounds(profileId, store, sorted, |sorted|);
    NumCompletedSort(group);
    Replay(profileId, store, Start, sorted).totals
  }

  /** A completion that closes a full episode adds one response. */
  lemma StepCounts(profileId: int, store: Store, w: Walk, e: Event)
    requires e.kind == Completed && w.seen + {e.kind} == Expected
    ensures Step(profileId, store, w, e)
      == Walk({}, Totals(w.totals.count + 1, w.totals.amount + GetAmount(store, profileId, e.time), w.totals.reward + e.reward))
  {
  }

  /** A completion without both a receipt and a view only closes the episode. */
  lemma StepSpoils(profileId: int, store: Store, w: Walk, e: Event)
    requires e.kind == Completed && w.seen + {e.kind} != Expected
    ensures Step(profileId, store, w, e) == Walk({}, w.totals)
  {
  }

  /** Any other event is only remembered. */
  lemma StepCollects(profileId: int, store: Store, w: Walk, e: Event)
    requires e.kind != Completed
    ensures Step(profileId, store, w, e) == Walk(w.seen + {e.kind}, w.totals)
  {
  }

  /** `check_validity` as written: sort the group by time, then run the loop below. */
  method CheckValidityLoop(profileId: int, group: seq<Event>, store: Store) returns (count: nat, amount: real, reward: real)
    ensures Totals(count, amount, reward) == CheckValidity(profileId, group, store)
    ensures count <= NumCompleted(group)
    ensures count == 0 ==> amount == 0.0 && reward == 0.0
  {
    var sorted := SortByTime(group);
    count, amount, reward := ReplayLoop(profileId, store, sorted);
  }

  /** The `for` loop of `check_validity` over the time-ordered group, with `event_set`
      cleared after every completion. */
  method ReplayLoop(profileId: int, store: Store, sorted: seq<Event>) returns (count: nat, amount: real, reward: real)
    ensures Totals(count, amount, reward) == Replay(profileId, store, Start, sorted).totals
  {
    count, amount, reward := 0, 0.0, 0.0;
    var eventSet: set<EventKind> := {};
    var i := 0;
    while i < |sorted|
      invariant 0 <= i <= |sorted|
      invariant Walk(eventSet, Totals(count, amount, reward)) == Replay(profileId, store, Start, sorted[..i])
    {
      var e := sorted[i];
      ReplayLast(profileId, store, sorted, i + 1);
      ghost var before := Walk(eventSet, Totals(count, amount, reward));
      eventSet := eventSet + {e.kind};
      if e.kind == Completed {
        if eventSet == Expected {
          StepCounts(profileId, store, before, e);
          count := count + 1;
          amount := amount + GetAmount(store, profileId, e.time);
          reward := reward + e.reward;
        } else {
          StepSpoils(profileId, store, before, e);
        }
        eventSet := {};
      } else {
        StepCollects(profileId, store, before, e);
      }
      i := i + 1;
    }
    assert sorted[..i] == sorted;
  }


  // ---------------------------------------------------------------------------
  // Properties of the replay

  /** A completion is valid exactly when the earlier events of its episode are receipts
      and views only, with at least one of each; their order does not matter. */
  lemma CountedIff(s: seq<Event>, i: nat)
    requires i < |s|
    ensures Counted(s, i) <==> s[i].kind == Completed && KindsIn(s, EpisodeStart(s, i), i) == {Received, Viewed}
  {
    var lo := EpisodeStart(s, i);
    KindsInExtend(s, lo, i);
    assert Completed !in KindsIn(s, lo, i);
  }

  /** A valid completion is preceded, within its episode, by a receipt and by a view. */
  lemma CountedHasReceiptAndView(s: seq<Event>, i: nat)
    requires i < |s| && Counted(s, i)
    ensures exists j :: EpisodeStart(s, i) <= j < i && s[j].kind == Received
    ensures exists j :: EpisodeStart(s, i) <= j < i && s[j].kind == Viewed
  {
    CountedIff(s, i);
    var lo := EpisodeStart(s, i);
    assert Received in KindsIn(s, lo, i);
    assert Viewed in KindsIn(s, lo, i);
  }

  /** Any other kind in an episode, a transaction included, keeps its completion from
      counting. */
  lemma StrayKindSpoilsEpisode(s: seq<Event>, i: nat, j: nat)
    requires i < |s| && EpisodeStart(s, i) <= j < i
    requires s[j].kind != Received && s[j].kind != Viewed
    ensures !Counted(s, i)
  {
    CountedIff(s, i);
    assert s[j].kind in KindsIn(s, EpisodeStart(s, i), i);
  }

  /** Replaying a concatenation replays the second part from where the first left off. */
  lemma {:induction false} ReplayAppend(profileId: int, store: Store, w: Walk, a: seq<Event>, b: seq<Event>)
    ensures Replay(profileId, store, w, a + b) == Replay(profileId, store, Replay(profileId, store, w, a), b)
    decreases |b|
  {
    if b == [] {
      assert a + b == a;
    } else {
      var b' := b[..|b| - 1];
      assert (a + b)[..|a + b| - 1] == a + b';
      ReplayAppend(profileId, store, w, a, b');
    }
  }

  /** Events after the last completion change nothing in the totals. */
  lemma {:induction false} TrailingEventsIgnored(profileId: int, store: Store, w: Walk, b: seq<Event>)
    requires forall e :: e in b ==> e.kind != Completed
    ensures Replay(profileId, store, w, b).totals == w.totals
    decreases |b|
  {
    if b != [] {
      TrailingEventsIgnored(profileId, store, w, b[..|b| - 1]);
      assert b[|b| - 1] in b;
    }
  }

  lemma SwapPair(profileId: int, store: Store, w: Walk, x: Event, y: Event)
    requires x.kind != Completed && y.kind != Completed
    ensures Replay(profileId, store, w, [x, y]) == Replay(profileId, store, w, [y, x])
  {
    assert [x, y][..1] == [x] && [y, x][..1] == [y];
    assert [x][..0] == [] && [y][..0] == [];
    assert Replay(profileId, store, w, [x]) == Step(profileId, store, w, x) == Walk(w.seen + {x.kind}, w.totals);
    assert Replay(profileId, store, w, [y]) == Step(profileId, store, w, y) == Walk(w.seen + {y.kind}, w.totals);
    assert Replay(profileId, store, w, [x, y]) == Step(profileId, store, Replay(profileId, store, w, [x]), y);
    assert Replay(profileId, store, w, [y, x]) == Step(profileId, store, Replay(profileId, store, w, [y]), x);
    assert Replay(profileId, store, w, [x, y]) == Walk(w.seen + {x.kind} + {y.kind}, w.totals);
    assert Replay(profileId, store, w, [y, x]) == Walk(w.seen + {y.kind} + {x.kind}, w.totals);
  }

  /** Within an episode order is irrelevant: swapping two adjacent non-completion events
      leaves the replay unchanged. */
  lemma SwapWithinEpisode(profileId: int, store: Store, s: seq<Event>, i: nat)
    requires i + 1 < |s|
    requires s[i].kind != Completed && s[i + 1].kind != Completed
    ensures Replay(profileId, store, Start, s[..i] + [s[i + 1], s[i]] + s[i + 2..]) == Replay(profileId, store, Start, s)
  {
    var pre, rest := s[..i], s[i + 2..];
    assert s == pre + [s[i], s[i + 1]] + rest;
    ReplayAppend(profileId, store, Start, pre + [s[i], s[i + 1]], rest);
    ReplayAppend(profileId, store, Start, pre + [s[i + 1], s[i]], rest);
    ReplayAppend(profileId, store, Start, pre, [s[i], s[i + 1]]);
    ReplayAppend(profileId, store, Start, pre, [s[i + 1], s[i]]);
    SwapPair(profileId, store, Replay(profileId, store, Start, pre), s[i], s[i + 1]);
  }

  /** Inserting an event no earlier than all others appends it. */
  lemma {:induction false} InsertLatest(e: Event, s: seq<Event>)
    requires SortedByTime(s)
    requires forall i :: 0 <= i < |s| ==> s[i].time <= e.time
    ensures InsertByTime(e, s) == s + [e]
    decreases |s|
  {
    if s != [] {
      var rest := s[1..];
      assert forall i :: 0 <= i < |rest| ==> rest[i] == s[i + 1];
      InsertLatest(e, rest);
      assert s == [s[0]] + rest;
    }
  }

  /** The insertion sort leaves a time-ordered group as it is, ties included. Only the
      stable sort of this model promises this for ties; see `SortSorted`. */
  lemma {:induction false} InsertionSortKeepsOrder(s: seq<Event>)
    requires SortedByTime(s)
    ensures SortByTime(s) == s
    decreases |s|
  {
    if s != [] {
      var pre, last := s[..|s| - 1], s[|s| - 1];
      SortedBeforeLast(s, pre);
      InsertionSortKeepsOrder(pre);
      assert SortByTime(s) == InsertByTime(last, SortByTime(pre));
      InsertLatest(last, pre);
      assert pre + [last] == s;
    }
  }
  /** Times strictly increase along the group: no two events share a time. */
  ghost predicate StrictlyByTime(s: seq<Event>) {
    forall i :: 0 <= i < |s| - 1 ==> s[i].time < s[i + 1].time
  }

  /** A group whose times strictly increase is left as it is. With distinct times the
      time order is unique, so any sort, stable or not, does the same. */
  lemma SortSorted(s: seq<Event>)
    requires StrictlyByTime(s)
    ensures SortByTime(s) == s
  {
    assert SortedByTime(s);
    InsertionSortKeepsOrder(s);
  }


  /** Dropping the last event of a time-ordered group leaves it time-ordered, and
      no earlier event is later than the last one. */
  lemma SortedBeforeLast(s: seq<Event>, pre: seq<Event>)
    requires SortedByTime(s) && s != [] && pre == s[..|s| - 1]
    ensures SortedByTime(pre)
    ensures forall i :: 0 <= i < |pre| ==> pre[i].time <= s[|s| - 1].time
  {
    assert forall i :: 0 <= i < |pre| ==> pre[i] == s[i];
    forall i | 0 <= i < |pre| ensures pre[i].time <= s[|s| - 1].time {
      SortedByTimeOrdered(s, i, |s| - 1);
    }
  }

  lemma {:induction false} SortedByTimeOrdered(s: seq<Event>, i: nat, j: nat)
    requires SortedByTime(s) && i <= j < |s|
    ensures s[i].time <= s[j].time
    decreases j - i
  {
    if i < j {
      SortedByTimeOrdered(s, i + 1, j);
    }
  }

  /** A receipt, a view and a completion in a fresh episode make one valid response. */
  lemma FullEpisode(profileId: int, store: Store, t: Totals, r: Event, v: Event, c: Event)
    requires r.kind == Received && v.kind == Viewed && c.kind == Completed
    ensures Replay(profileId, store, Walk({}, t), [r, v, c])
      == Walk({}, Totals(t.count + 1, t.amount + GetAmount(store, profileId, c.time), t.reward + c.reward))
  {
    var w := Walk({}, t);
    assert [r, v, c][..2] == [r, v] && [r, v][..1] == [r] && [r][..0] == [];
    assert Replay(profileId, store, w, [r]) == Walk({Received}, t);
    assert Replay(profileId, store, w, [r, v]) == Walk({Received, Viewed}, t);
    assert {Received, Viewed} + {Completed} == Expected;
  }

  /** A time-ordered group of one receipt, one view and one completion: one valid
      response, crediting the customer's spend at the completion time and its reward. */
  lemma SingleEpisodeGroup(profileId: int, store: Store, r: Event, v: Event, c: Event)
    requires r.kind == Received && v.kind == Viewed && c.kind == Completed
    requires r.time < v.time < c.time
    ensures CheckValidity(profileId, [r, v, c], store) == Totals(1, GetAmount(store, profileId, c.time), c.reward)
  {
    var g := [r, v, c];
    assert StrictlyByTime(g);
    SortSorted(g);
    assert CheckValidity(profileId, g, store) == Replay(profileId, store, Start, g).totals;
    FullEpisode(profileId, store, Totals(0, 0.0, 0.0), r, v, c);
  }

  /** The replay reads the store only for this customer: stores that agree on the
      customer's totals give the same result. */
  lemma {:induction false} ReplayStoreLocal(profileId: int, s1: Store, s2: Store, w: Walk, s: seq<Event>)
    requires forall t :: GetAmount(s1, profileId, t) == GetAmount(s2, profileId, t)
    ensures Replay(profileId, s1, w, s) == Replay(profileId, s2, w, s)
    decreases |s|
  {
    if s != [] {
      ReplayStoreLocal(profileId, s1, s2, w, s[..|s| - 1]);
    }
  }

  /** `check_validity` reads the store only for the group's customer. */
  lemma CheckValidityStoreLocal(profileId: int, group: seq<Event>, s1: Store, s2: Store)
    requires forall t :: GetAmount(s1, profileId, t) == GetAmount(s2, profileId, t)
    ensures CheckValidity(profileId, group, s1) == CheckValidity(profileId, group, s2)
  {
    ReplayStoreLocal(profileId, s1, s2, Start, SortByTime(group));
  }
}
