/**
 `AmountStorer`: the per-(customer, time) transaction totals, kept in a
 `defaultdict(float)` whose keys are the strings "<customer>-<time>".
 */
module AmountStorer {
  import opened Digits

  type Store = map<string, real>

  const EmptyStore: Store := map[]

  /** `gen_key`: the decimal customer id, a hyphen, the decimal time. */
  function GenKey(profileId: int, time: int): string {
    IntToString(profileId) + "-" + IntToString(time)
  }

  /** The first hyphen at or after position `i`, or `|s|` when there is none. */
  function HyphenFrom(s: string, i: nat): (h: nat)
    requires i <= |s|
    ensures i <= h <= |s|
    ensures forall j :: i <= j < h ==> s[j] != '-'
    ensures h < |s| ==> s[h] == '-'
    decreases |s| - i
  {
    if i == |s| || s[i] == '-' then i else HyphenFrom(s, i + 1)
  }

  /** Reads a key back: an optional minus sign and the digits up to the next hyphen
      give the customer, the text after that hyphen gives the time. */
  function SplitKey(key: string): (int, int) {
    var start := if |key| >= 1 && key[0] == '-' then 1 else 0;
    var h := HyphenFrom(key, start);
    (ParseInt(key[..h]), if h < |key| then ParseInt(key[h + 1..]) else 0)
  }

  /** A key reads back as the pair it was built from. */
  lemma GenKeySplits(p: int, t: int)
    ensures SplitKey(GenKey(p, t)) == (p, t)
  {
    var a, b := IntToString(p), IntToString(t);
    var key := a + "-" + b;
    var start := if p < 0 then 1 else 0;
    var digits := if p < 0 then NatToString(-p) else NatToString(p);
    IntToStringSign(p);
    assert key[0] == a[0];
    assert a == a[..start] + digits;
    forall j | start <= j < |a| ensures key[j] != '-' {
      assert key[j] == digits[j - start];
    }
    assert key[|a|] == '-';
    var h := HyphenFrom(key, start);
    assert h == |a|;
    assert key[..h] == a;
    assert key[h + 1..] == b;
    ParseIntToString(p);
    ParseIntToString(t);
  }

  /** The value stored under a key, 0.0 when the key was never written. */
  function Get(store: Store, key: string): real {
    if key in store then store[key] else 0.0
  }

  /** `get_amount`: the total spent by the customer at that exact time, 0.0 if none. */
  function GetAmount(store: Store, profileId: int, time: int): real {
    Get(store, GenKey(profileId, time))
  }

  /** `set_amount`: adds `amount` to the total under the key (it accumulates, it does not overwrite). */
  function SetAmount(store: Store, profileId: int, time: int, amount: real): (r: Store)
    ensures GetAmount(r, profileId, time) == GetAmount(store, profileId, time) + amount
  {
    var key := GenKey(profileId, time);
    store[key := Get(store, key) + amount]
  }

  /** `gen_key` is injective: distinct (customer, time) pairs never share a total. */
  lemma GenKeyInjective(p1: int, t1: int, p2: int, t2: int)
    requires GenKey(p1, t1) == GenKey(p2, t2)
    ensures p1 == p2 && t1 == t2
  {
    GenKeySplits(p1, t1);
    GenKeySplits(p2, t2);
  }


  /** `set_amount` leaves the total of every other (customer, time) pair unchanged. */
  lemma SetAmountFrame(store: Store, p: int, t: int, amount: real, q: int, u: int)
    requires (q, u) != (p, t)
    ensures GetAmount(SetAmount(store, p, t, amount), q, u) == GetAmount(store, q, u)
  {
    if GenKey(q, u) == GenKey(p, t) {
      GenKeyInjective(q, u, p, t);
    }
  }

  /** `set_amount` as every read sees it: the one pair gains `amount`, every other pair keeps its total. */
  lemma SetAmountReads(store: Store, p: int, t: int, amount: real)
    ensures forall q, u :: GetAmount(SetAmount(store, p, t, amount), q, u) == GetAmount(store, q, u) + (if (q, u) == (p, t) then amount else 0.0)
  {
    forall q, u ensures GetAmount(SetAmount(store, p, t, amount), q, u)
      == GetAmount(store, q, u) + (if (q, u) == (p, t) then amount else 0.0)
    {
      if (q, u) != (p, t) {
        SetAmountFrame(store, p, t, amount, q, u);
      }
    }
  }

  /** A pair never written reads as 0.0. */
  lemma NeverSetIsZero(p: int, t: int)
    ensures GetAmount(EmptyStore, p, t) == 0.0
  {
  }

  /** Reading a missing key of a `defaultdict(float)` inserts it with 0.0. */
  function GetAmountInserting(store: Store, profileId: int, time: int): (r: (real, Store))
    ensures r.1.Keys == store.Keys + {GenKey(profileId, time)}
    ensures forall key :: key in store ==> r.1[key] == store[key]
  {
    var key := GenKey(profileId, time);
    if key in store then (store[key], store) else (0.0, store[key := 0.0])
  }

  /** The non-inserting read returns what the inserting read returns, and reading
      again after the insertion returns the same total. */
  lemma GetAmountIsInsertingRead(store: Store, p: int, t: int)
    ensures GetAmount(store, p, t) == GetAmountInserting(store, p, t).0
    ensures GetAmount(GetAmountInserting(store, p, t).1, p, t) == GetAmount(store, p, t)
  {
  }

  /** Two stores that read alike under every key. */
  ghost predicate SameTotals(s1: Store, s2: Store) {
    forall key :: Get(s1, key) == Get(s2, key)
  }

  /** The insertion done by a read is invisible: every later read and every later
      `set_amount` sees the same totals as without it. */
  lemma InsertingReadInvisible(store: Store, p: int, t: int, other: Store, q: int, u: int, amount: real)
    requires SameTotals(store, other)
    ensures SameTotals(GetAmountInserting(store, p, t).1, other)
    ensures SameTotals(SetAmount(GetAmountInserting(store, p, t).1, q, u, amount), SetAmount(other, q, u, amount))
  {
    var s' := GetAmountInserting(store, p, t).1;
    assert forall key :: Get(s', key) == Get(store, key);
    var a, b := SetAmount(s', q, u, amount), SetAmount(other, q, u, amount);
    forall key ensures Get(a, key) == Get(b, key) {
      if key != GenKey(q, u) {
        assert Get(a, key) == Get(s', key);
      }
    }
  }
}
