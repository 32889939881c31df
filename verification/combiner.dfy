/**
 `create_response`: the cleaned event log grouped by (profile id, offer id), the
 groups visited in ascending key order. An offer-0 group holds a customer's plain
 transactions and is poured into the amount store; every other group is replayed
 by `check_validity` against the store as it stands and yields one response row.
 */
module Combiner {
  import opened Events
  import opened AmountStorer
  import opened Validity

  /** A `groupby(['profile_id', 'offer_id'])` key. */
  datatype GroupKey = GroupKey(profileId: int, offerId: int)

  /** One row of the response table. */
  datatype Row = Row(response: int, profileId: int, offerId: int, respNumber: nat, respAmount: real, respReward: real)

  /** The visit state: the amount store and the rows emitted so far. */
  datatype Pass = Pass(store: Store, rows: seq<Row>)

  function KeyOf(e: Event): GroupKey {
    GroupKey(e.profileId, e.offerId)
  }

  /** The order `groupby` visits its groups in: by profile id, then offer id. */
  predicate KeyLess(a: GroupKey, b: GroupKey) {
    a.profileId < b.profileId || (a.profileId == b.profileId && a.offerId < b.offerId)
  }

  ghost predicate StrictlyAscending(ks: seq<GroupKey>) {
    forall i, j :: 0 <= i < j < |ks| ==> KeyLess(ks[i], ks[j])
  }

  /** The distinct keys of an event log. */
  ghost function Keys(events: seq<Event>): set<GroupKey> {
    set e | e in events :: KeyOf(e)
  }

  // ---------------------------------------------------------------------------
  // Grouping

  function InsertKey(k: GroupKey, ks: seq<GroupKey>): (r: seq<GroupKey>)
    requires StrictlyAscending(ks)
    ensures StrictlyAscending(r)
    ensures forall x :: x in r <==> x in ks || x == k
    decreases |ks|
  {
    if ks == [] then [k]
    else if k == ks[0] then ks
    else if KeyLess(k, ks[0]) then [k] + ks
    else
      var rest := InsertKey(k, ks[1..]);
      assert forall x :: x in rest ==> KeyLess(ks[0], x);
      [ks[0]] + rest
  }

  /** The group keys in the order `groupby` visits them: every key once, ascending. */
  function GroupKeys(events: seq<Event>): (r: seq<GroupKey>)
    ensures StrictlyAscending(r)
    ensures forall k :: k in r <==> k in Keys(events)
    decreases |events|
  {
    if events == [] then []
    else
      var pre := events[..|events| - 1];
      var e := events[|events| - 1];
      assert events == pre + [e];
      assert Keys(events) == Keys(pre) + {KeyOf(e)};
      InsertKey(KeyOf(e), GroupKeys(pre))
  }

  /** The group of key `k`: its events in log order. */
  function Group(events: seq<Event>, k: GroupKey): (g: seq<Event>)
    ensures forall e :: e in g <==> e in events && KeyOf(e) == k
    ensures forall e :: multiset(g)[e] == if KeyOf(e) == k then multiset(events)[e] else 0
    decreases |events|
  {
    if events == [] then []
    else
      var pre := events[..|events| - 1];
      var e := events[|events| - 1];
      assert events == pre + [e];
      Group(pre, k) + (if KeyOf(e) == k then [e] else [])
  }
  /** Grouping a log extended by one event extends the group by that event when it has the key. */
  lemma GroupSnoc(s: seq<Event>, e: Event, k: GroupKey)
    ensures Group(s + [e], k) == Group(s, k) + (if KeyOf(e) == k then [e] else [])
  {
    assert (s + [e])[..|s + [e]| - 1] == s;
  }

  lemma ConcatAssoc<T>(x: seq<T>, y: seq<T>, z: seq<T>)
    ensures (x + y) + z == x + (y + z)
  {
  }

  /** One step of `GroupAppend`: extending the second part by one event. */
  lemma GroupAppendStep(a: seq<Event>, pre: seq<Event>, e: Event, k: GroupKey)
    requires Group(a + pre, k) == Group(a, k) + Group(pre, k)
    ensures Group(a + (pre + [e]), k) == Group(a, k) + Group(pre + [e], k)
  {
    ConcatAssoc(a, pre, [e]);
    GroupSnoc(a + pre, e, k);
    GroupSnoc(pre, e, k);
    ConcatAssoc(Group(a, k), Group(pre, k), if KeyOf(e) == k then [e] else []);
  }

  /** Grouping keeps log order: the group of a concatenation is the group of the first
      part followed by the group of the second. */
  lemma {:induction false} GroupAppend(a: seq<Event>, b: seq<Event>, k: GroupKey)
    ensures Group(a + b, k) == Group(a, k) + Group(b, k)
    decreases |b|
  {
    if b == [] {
      assert a + b == a;
    } else {
      var pre, e := b[..|b| - 1], b[|b| - 1];
      assert b == pre + [e];
      GroupAppend(a, pre, k);
      GroupAppendStep(a, pre, e, k);
    }
  }




  // ---------------------------------------------------------------------------
  // The visit

  /** `set_amount` for each transaction of a customer's offer-0 group: the group's amounts
      are added to that customer's times, and nothing else changes. */
  function StoreGroup(store: Store, profileId: int, g: seq<Event>): (r: Store)
    ensures forall q, t :: GetAmount(r, q, t) == GetAmount(store, q, t) + (if q == profileId then SumAt(g, t) else 0.0)
    decreases |g|
  {
    if g == [] then store
    else
      var e := g[|g| - 1];
      var prev := StoreGroup(store, profileId, g[..|g| - 1]);
      SetAmountReads(prev, profileId, e.time, e.amount);
      SetAmount(prev, profileId, e.time, e.amount)
  }

  /** The row for an offer group: `[1, p, o, count, amount, reward]` when a response
      was valid, `[0, p, o, 0, 0.0, 0]` otherwise. */
  function MakeRow(k: GroupKey, t: Totals): (r: Row)
    ensures r.profileId == k.profileId && r.offerId == k.offerId
    ensures r.response == 1 <==> r.respNumber > 0
    ensures r.response == 0 <==> r.respNumber == 0
    ensures r.respNumber == t.count
    ensures r.respNumber == 0 ==> r.respAmount == 0.0 && r.respReward == 0.0
    ensures t.count == 0 ==> r == Row(0, k.profileId, k.offerId, 0, 0.0, 0.0)
    ensures t.count > 0 ==> r.respAmount == t.amount && r.respReward == t.reward
  {
    if t.count > 0 then Row(1, k.profileId, k.offerId, t.count, t.amount, t.reward)
    else Row(0, k.profileId, k.offerId, 0, 0.0, 0.0)
  }

  /** One iteration of `create_response`: an offer-0 group records its transactions,
      any other group emits its row. */
  function VisitStep(events: seq<Event>, prev: Pass, k: GroupKey): Pass {
    if k.offerId == 0 then
      Pass(StoreGroup(prev.store, k.profileId, Group(events, k)), prev.rows)
    else
      Pass(prev.store, prev.rows + [MakeRow(k, CheckValidity(k.profileId, Group(events, k), prev.store))])
  }

  /** The loop of `create_response` over the first keys, in order. It emits one row per
      offer key, in visiting order, whatever the store holds. */
  function Visit(events: seq<Event>, keys: seq<GroupKey>): (r: Pass)
    ensures RowKeys(r.rows) == OfferKeys(keys)
    decreases |keys|
  {
    if keys == [] then Pass(EmptyStore, [])
    else
      var pre, k := keys[..|keys| - 1], keys[|keys| - 1];
      var prev := Visit(events, pre);
      RowKeysAppend(prev.rows, MakeRow(k, CheckValidity(k.profileId, Group(events, k), prev.store)));
      VisitStep(events, prev, k)
  }

  /** `create_response(transcript_cleaned)`: one row per group with a nonzero offer id,
      in ascending key order. */
  function CreateResponse(events: seq<Event>): (r: seq<Row>)
    ensures RowKeys(r) == OfferKeys(GroupKeys(events))
    ensures StrictlyAscending(RowKeys(r))
  {
    OfferKeysAscending(GroupKeys(events));
    Visit(events, GroupKeys(events)).rows
  }

  // ---------------------------------------------------------------------------
  // The two-phase reference: all transactions first, then every offer group

  /** The total a customer spent at one time, over the whole log. */
  function SumWhere(events: seq<Event>, profileId: int, time: int): real
    decreases |events|
  {
    if events == [] then 0.0
    else
      var e := events[|events| - 1];
      SumWhere(events[..|events| - 1], profileId, time)
        + (if e.offerId == 0 && e.profileId == profileId && e.time == time then e.amount else 0.0)
  }

  /** The sum of the amounts at one time within a group. */
  function SumAt(g: seq<Event>, time: int): real
    decreases |g|
  {
    if g == [] then 0.0
    else SumAt(g[..|g| - 1], time) + (if g[|g| - 1].time == time then g[|g| - 1].amount else 0.0)
  }

  /** The transaction pre-pass: every offer-0 event poured into a fresh store, in log order. */
  function SpendStore(events: seq<Event>): (r: Store)
    decreases |events|
  {
    if events == [] then EmptyStore
    else
      var e := events[|events| - 1];
      var prev := SpendStore(events[..|events| - 1]);
      if e.offerId == 0 then SetAmount(prev, e.profileId, e.time, e.amount) else prev
  }

  /** The rows of the offer groups among `keys`, each replayed against `store`. */
  function RowsFor(events: seq<Event>, keys: seq<GroupKey>, store: Store): seq<Row>
    decreases |keys|
  {
    if keys == [] then []
    else
      var k := keys[|keys| - 1];
      RowsFor(events, keys[..|keys| - 1], store)
        + (if k.offerId == 0 then [] else [MakeRow(k, CheckValidity(k.profileId, Group(events, k), store))])
  }

  /** Phase one fills the store from the whole transaction stream; phase two evaluates
      every offer group against it. */
  function TwoPhase(events: seq<Event>): seq<Row> {
    RowsFor(events, GroupKeys(events), SpendStore(events))
  }

  // ---------------------------------------------------------------------------
  // Lemmas

  /** The pre-pass store holds, for every customer and time, the sum of that customer's
      transactions at that time. */
  lemma {:induction false} SpendStoreSums(events: seq<Event>, p: int, t: int)
    ensures GetAmount(SpendStore(events), p, t) == SumWhere(events, p, t)
    decreases |events|
  {
    if events == [] {
      NeverSetIsZero(p, t);
    } else {
      var e := events[|events| - 1];
      var pre := events[..|events| - 1];
      SpendStoreSums(pre, p, t);
      if e.offerId == 0 && (e.profileId, e.time) != (p, t) {
        SetAmountFrame(SpendStore(pre), e.profileId, e.time, e.amount, p, t);
      }
    }
  }

  /** A customer's offer-0 group carries all of that customer's transactions. */
  lemma {:induction false} SumAtGroup(events: seq<Event>, p: int, t: int)
    ensures SumAt(Group(events, GroupKey(p, 0)), t) == SumWhere(events, p, t)
    decreases |events|
  {
    if events != [] {
      var pre := events[..|events| - 1];
      var e := events[|events| - 1];
      SumAtGroup(pre, p, t);
      var g := Group(pre, GroupKey(p, 0));
      if KeyOf(e) == GroupKey(p, 0) {
        assert (g + [e])[..|g|] == g;
      } else {
        assert Group(events, GroupKey(p, 0)) == g;
      }
    }
  }

  /** A customer without an offer-0 group has spent nothing. */
  lemma {:induction false} SumWhereNoTransactions(events: seq<Event>, p: int, t: int)
    requires GroupKey(p, 0) !in Keys(events)
    ensures SumWhere(events, p, t) == 0.0
    decreases |events|
  {
    if events != [] {
      var pre := events[..|events| - 1];
      var e := events[|events| - 1];
      assert Keys(pre) <= Keys(events) by {
        forall x | x in Keys(pre) ensures x in Keys(events) {
          var y :| y in pre && KeyOf(y) == x;
          assert y in events;
        }
      }
      assert KeyOf(e) in Keys(events);
      SumWhereNoTransactions(pre, p, t);
    }
  }

  lemma AscendingPrefix(ks: seq<GroupKey>, n: nat)
    requires StrictlyAscending(ks) && n <= |ks|
    ensures StrictlyAscending(ks[..n])
  {
  }

  /** In a strictly ascending key list a smaller key sits at a smaller position. */
  lemma AscendingIndexOrder(keys: seq<GroupKey>, i: nat, j: nat)
    requires StrictlyAscending(keys) && i < |keys| && j < |keys|
    requires KeyLess(keys[i], keys[j])
    ensures i < j
  {
  }

  /** In a strictly ascending key list the last key does not occur earlier. */
  lemma LastKeyIsNew(keys: seq<GroupKey>)
    requires StrictlyAscending(keys) && keys != []
    ensures keys[|keys| - 1] !in keys[..|keys| - 1]
  {
    var pre := keys[..|keys| - 1];
    forall i | 0 <= i < |pre| ensures pre[i] != keys[|keys| - 1] {
      assert KeyLess(keys[i], keys[|keys| - 1]);
    }
  }

  lemma InSplitLast<T>(xs: seq<T>, x: T)
    requires xs != []
    ensures x in xs <==> x in xs[..|xs| - 1] || x == xs[|xs| - 1]
  {
    assert xs == xs[..|xs| - 1] + [xs[|xs| - 1]];
  }

  /** Storing a new offer-0 group adds exactly that customer's spending. */
  lemma StoreGroupStep(events: seq<Event>, store: Store, pre: seq<GroupKey>, k: GroupKey, p: int, t: int)
    requires k.offerId == 0 && k !in pre
    requires GetAmount(store, p, t) == if GroupKey(p, 0) in pre then SumWhere(events, p, t) else 0.0
    ensures GetAmount(StoreGroup(store, k.profileId, Group(events, k)), p, t)
      == if GroupKey(p, 0) in pre || GroupKey(p, 0) == k then SumWhere(events, p, t) else 0.0
  {
    if k.profileId == p {
      SumAtGroup(events, p, t);
    }
  }

  /** One step of the visit as seen by the store. */
  lemma VisitStoreStep(events: seq<Event>, keys: seq<GroupKey>, p: int, t: int)
    requires keys != [] && keys[|keys| - 1] !in keys[..|keys| - 1]
    requires GetAmount(Visit(events, keys[..|keys| - 1]).store, p, t)
      == if GroupKey(p, 0) in keys[..|keys| - 1] then SumWhere(events, p, t) else 0.0
    ensures GetAmount(Visit(events, keys).store, p, t)
      == if GroupKey(p, 0) in keys then SumWhere(events, p, t) else 0.0
  {
    var pre := keys[..|keys| - 1];
    var k := keys[|keys| - 1];
    var prev := Visit(events, pre);
    assert Visit(events, keys) == VisitStep(events, prev, k);
    InSplitLast(keys, GroupKey(p, 0));
    if k.offerId == 0 {
      StoreGroupStep(events, prev.store, pre, k, p, t);
    }
  }

  /** While visiting in ascending order, a customer's store entries are empty until the
      customer's offer-0 group is visited, and hold the customer's full totals after it. */
  lemma {:induction false} VisitStore(events: seq<Event>, keys: seq<GroupKey>, p: int, t: int)
    requires StrictlyAscending(keys)
    ensures GetAmount(Visit(events, keys).store, p, t)
      == if GroupKey(p, 0) in keys then SumWhere(events, p, t) else 0.0
    decreases |keys|
  {
    if keys == [] {
      NeverSetIsZero(p, t);
    } else {
      AscendingPrefix(keys, |keys| - 1);
      VisitStore(events, keys[..|keys| - 1], p, t);
      LastKeyIsNew(keys);
      VisitStoreStep(events, keys, p, t);
    }
  }

  /** When a customer's offer group is visited, the store already agrees with the
      pre-pass on that customer. */
  lemma StoreReadyForOffer(events: seq<Event>, keys: seq<GroupKey>, n: nat, t: int)
    requires StrictlyAscending(keys) && n < |keys|
    requires keys[n].offerId > 0
    requires forall e :: e in events ==> KeyOf(e) in keys
    ensures GetAmount(Visit(events, keys[..n]).store, keys[n].profileId, t)
      == GetAmount(SpendStore(events), keys[n].profileId, t)
  {
    var p := keys[n].profileId;
    AscendingPrefix(keys, n);
    VisitStore(events, keys[..n], p, t);
    SpendStoreSums(events, p, t);
    if GroupKey(p, 0) in keys {
      var i :| 0 <= i < |keys| && keys[i] == GroupKey(p, 0);
      AscendingIndexOrder(keys, i, n);
      assert keys[..n][i] == GroupKey(p, 0);
    } else {
      assert GroupKey(p, 0) !in Keys(events);
      SumWhereNoTransactions(events, p, t);
      assert GroupKey(p, 0) !in keys[..n];
    }
  }

  /** Visiting the first `n` keys emits the rows the two-phase reference gives them. */
  lemma {:induction false} VisitMatchesTwoPhase(events: seq<Event>, keys: seq<GroupKey>, n: nat)
    requires StrictlyAscending(keys) && n <= |keys|
    requires forall k :: k in keys ==> k.offerId >= 0
    requires forall e :: e in events ==> KeyOf(e) in keys
    ensures Visit(events, keys[..n]).rows == RowsFor(events, keys[..n], SpendStore(events))
    decreases n
  {
    if n > 0 {
      VisitMatchesTwoPhase(events, keys, n - 1);
      assert keys[..n][..n - 1] == keys[..n - 1];
      var k := keys[n - 1];
      if k.offerId != 0 {
        var store := Visit(events, keys[..n - 1]).store;
        forall t ensures GetAmount(store, k.profileId, t) == GetAmount(SpendStore(events), k.profileId, t) {
          StoreReadyForOffer(events, keys, n - 1, t);
        }
        CheckValidityStoreLocal(k.profileId, Group(events, k), store, SpendStore(events));
      }
    }
  }

  /** Visiting in ascending key order with transactions under offer 0 gives the same rows
      as a full transaction pre-pass followed by the offer groups, provided no offer id is
      negative (cleaned offer ids never are). */
  lemma CreateResponseIsTwoPhase(events: seq<Event>)
    requires forall e :: e in events ==> e.offerId >= 0
    ensures CreateResponse(events) == TwoPhase(events)
  {
    var keys := GroupKeys(events);
    forall k | k in keys ensures k.offerId >= 0 {
      assert k in Keys(events);
    }
    forall e | e in events ensures KeyOf(e) in keys {
      assert KeyOf(e) in Keys(events);
    }
    VisitMatchesTwoPhase(events, keys, |keys|);
    assert keys[..|keys|] == keys;
  }

  // ---------------------------------------------------------------------------
  // The shape of the response table

  function RowKey(r: Row): GroupKey {
    GroupKey(r.profileId, r.offerId)
  }

  function RowKeys(rows: seq<Row>): (r: seq<GroupKey>)
    ensures |r| == |rows|
    ensures forall i :: 0 <= i < |rows| ==> r[i] == RowKey(rows[i])
  {
    seq(|rows|, i requires 0 <= i < |rows| => RowKey(rows[i]))
  }

  lemma RowKeysAppend(rows: seq<Row>, r: Row)
    ensures RowKeys(rows + [r]) == RowKeys(rows) + [RowKey(r)]
  {
  }

  /** The offer keys among `keys`, in order. */
  function OfferKeys(keys: seq<GroupKey>): (r: seq<GroupKey>)
    ensures forall k :: k in r <==> k in keys && k.offerId != 0
    decreases |keys|
  {
    if keys == [] then []
    else
      var k := keys[|keys| - 1];
      assert keys == keys[..|keys| - 1] + [k];
      OfferKeys(keys[..|keys| - 1]) + (if k.offerId == 0 then [] else [k])
  }

  lemma {:induction false} OfferKeysAscending(keys: seq<GroupKey>)
    requires StrictlyAscending(keys)
    ensures StrictlyAscending(OfferKeys(keys))
    decreases |keys|
  {
    if keys != [] {
      var pre := keys[..|keys| - 1];
      var k := keys[|keys| - 1];
      AscendingPrefix(keys, |keys| - 1);
      OfferKeysAscending(pre);
      var r := OfferKeys(pre);
      forall x | x in r ensures KeyLess(x, k) {
        var i :| 0 <= i < |pre| && pre[i] == x;
        assert keys[i] == x;
      }
    }
  }

  /** `create_response` emits exactly one row per group with a nonzero offer id, none for
      offer 0, in ascending (profile id, offer id) order; a row's response flag is 1
      exactly when it counts a valid response, and a row without one is all zeros. */
  lemma CreateResponseShape(events: seq<Event>)
    ensures StrictlyAscending(RowKeys(CreateResponse(events)))
    ensures forall k :: k in RowKeys(CreateResponse(events)) <==> k in Keys(events) && k.offerId != 0
    ensures forall r :: r in CreateResponse(events) ==>
      (r.response == 1 <==> r.respNumber > 0) && (r.response == 0 <==> r.respNumber == 0)
      && (r.respNumber == 0 ==> r.respAmount == 0.0 && r.respReward == 0.0)
  {
    forall r | r in CreateResponse(events)
      ensures (r.response == 1 <==> r.respNumber > 0) && (r.response == 0 <==> r.respNumber == 0)
      ensures r.respNumber == 0 ==> r.respAmount == 0.0 && r.respReward == 0.0
    {
      VisitRowsWellFormed(events, GroupKeys(events), r);
    }
  }

  lemma {:induction false} VisitRowsWellFormed(events: seq<Event>, keys: seq<GroupKey>, r: Row)
    requires r in Visit(events, keys).rows
    ensures (r.response == 1 <==> r.respNumber > 0) && (r.response == 0 <==> r.respNumber == 0)
    ensures r.respNumber == 0 ==> r.respAmount == 0.0 && r.respReward == 0.0
    decreases |keys|
  {
    var prev := Visit(events, keys[..|keys| - 1]);
    if r in prev.rows {
      VisitRowsWellFormed(events, keys[..|keys| - 1], r);
    }
  }
}
