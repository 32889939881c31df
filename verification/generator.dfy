/**
 Dense identifier assignment (`gen_id_map`): every distinct original identifier
 gets an integer code, 1 for the first one met, 2 for the next new one, and so
 on, in first-encounter order. The result is a `defaultdict(int)`, so reading a
 missing identifier yields 0, a value no identifier is ever assigned.
 */
module Generator {

  /** The state of the assignment loop: the codes handed out so far and the next code. */
  datatype IdMap<T(==)> = IdMap(codes: map<T, int>, counter: int)

  /** One loop iteration: a new identifier takes the counter, a known one changes nothing. */
  function Assign<T(==)>(st: IdMap<T>, x: T): IdMap<T> {
    if x in st.codes then st else IdMap(st.codes[x := st.counter], st.counter + 1)
  }

  /** The loop state after reading all of `ids`, starting from an empty map and counter 1. */
  function Build<T(==)>(ids: seq<T>): IdMap<T>
    decreases |ids|
  {
    if ids == [] then IdMap(map[], 1) else Assign(Build(ids[..|ids| - 1]), ids[|ids| - 1])
  }

  /** `gen_id_map(ids)`: a code for every identifier of the input and for nothing else,
      the codes being 1..n, each used once. */
  function GenIdMap<T(==)>(ids: seq<T>): (m: map<T, int>)
    ensures m.Keys == Distinct(ids)
    ensures Dense(m)
  {
    KeysAreIds(ids);
    KeysDistinct(Build(ids).codes, ids);
    BuildInvariant(ids);
    Build(ids).codes
  }

  /** Reading the `defaultdict`: the code of `x`, or 0 when `x` was never assigned. */
  function Lookup<T(==)>(m: map<T, int>, x: T): int {
    if x in m then m[x] else 0
  }

  /** The distinct identifiers of a sequence. */
  ghost function Distinct<T>(ids: seq<T>): set<T> {
    set x | x in ids
  }

  lemma KeysDistinct<T>(m: map<T, int>, ids: seq<T>)
    requires forall x :: x in m <==> x in ids
    ensures m.Keys == Distinct(ids)
  {
  }

  /** The codes of a map are exactly 1..|m|, each used once. */
  ghost predicate Dense<T>(m: map<T, int>) {
    && (forall x :: x in m ==> 1 <= m[x] <= |m|)
    && (forall x, y :: x in m && y in m && x != y ==> m[x] != m[y])
    && (forall c :: 1 <= c <= |m| ==> c in m.Values)
  }

  /** The loop invariant of `gen_id_map`: the counter is one past the number of codes, and the codes are dense. */
  lemma {:induction false} BuildInvariant<T>(ids: seq<T>)
    ensures Build(ids).counter == |Build(ids).codes| + 1
    ensures Dense(Build(ids).codes)
    decreases |ids|
  {
    if ids != [] {
      var pre := ids[..|ids| - 1];
      var x := ids[|ids| - 1];
      BuildInvariant(pre);
      var m := Build(pre).codes;
      if x !in m {
        var m' := m[x := |m| + 1];
        assert |m'| == |m| + 1;
        forall c | 1 <= c <= |m'| ensures c in m'.Values {
          if c <= |m| {
            assert c in m.Values;
            var y :| y in m && m[y] == c;
            assert y != x && m'[y] == c;
          } else {
            assert m'[x] == c;
          }
        }
      }
    }
  }

  /** Every identifier of the input is a key, and nothing else is. */
  lemma {:induction false} KeysAreIds<T>(ids: seq<T>)
    ensures forall x :: x in Build(ids).codes <==> x in ids
    decreases |ids|
  {
    if ids != [] {
      var pre := ids[..|ids| - 1];
      KeysAreIds(pre);
      assert ids == pre + [ids[|ids| - 1]];
    }
  }

  /** The codes are exactly 1..n, where n is the number of distinct identifiers. */
  lemma CodesAreOneToN<T>(ids: seq<T>)
    ensures |GenIdMap(ids)| == |Distinct(ids)|
    ensures forall x :: x in GenIdMap(ids) ==> 1 <= GenIdMap(ids)[x] <= |Distinct(ids)|
    ensures forall c :: 1 <= c <= |Distinct(ids)| ==> c in GenIdMap(ids).Values
  {
    KeysAreIds(ids);
    BuildInvariant(ids);
    KeysDistinct(GenIdMap(ids), ids);
  }

  /** Distinct identifiers get distinct codes. */
  lemma Injective<T>(ids: seq<T>, x: T, y: T)
    requires x in ids && y in ids && x != y
    ensures x in GenIdMap(ids) && y in GenIdMap(ids) && GenIdMap(ids)[x] != GenIdMap(ids)[y]
  {
    KeysAreIds(ids);
    BuildInvariant(ids);
  }

  /** Appending a known identifier leaves the map as it was. */
  lemma AppendSeen<T>(ids: seq<T>, x: T)
    requires x in ids
    ensures GenIdMap(ids + [x]) == GenIdMap(ids)
  {
    KeysAreIds(ids);
    assert (ids + [x])[..|ids|] == ids;
  }

  /** Appending a new identifier gives it code n + 1 and keeps every other code. */
  lemma AppendNew<T>(ids: seq<T>, x: T)
    requires x !in ids
    ensures GenIdMap(ids + [x]) == GenIdMap(ids)[x := |GenIdMap(ids)| + 1]
    ensures GenIdMap(ids + [x])[x] == |Distinct(ids)| + 1
  {
    KeysAreIds(ids);
    BuildInvariant(ids);
    CodesAreOneToN(ids);
    assert (ids + [x])[..|ids|] == ids;
  }

  /** Re-reading the same identifiers assigns nothing new: the mapping is idempotent. */
  lemma {:induction false} Idempotent<T>(ids: seq<T>, again: seq<T>)
    requires forall x :: x in again ==> x in ids
    ensures GenIdMap(ids + again) == GenIdMap(ids)
    decreases |again|
  {
    if again != [] {
      var pre := again[..|again| - 1];
      var x := again[|again| - 1];
      Idempotent(ids, pre);
      assert ids + again == (ids + pre) + [x];
      KeysAreIds(ids + pre);
      AppendSeen(ids + pre, x);
    } else {
      assert ids + again == ids;
    }
  }

  /** A code once assigned never changes as more identifiers are read. */
  lemma {:induction false} CodesStable<T>(ids: seq<T>, k: nat, x: T)
    requires k <= |ids| && x in GenIdMap(ids[..k])
    ensures x in GenIdMap(ids) && GenIdMap(ids)[x] == GenIdMap(ids[..k])[x]
    decreases |ids| - k
  {
    if k < |ids| {
      var pre := ids[..|ids| - 1];
      assert ids[..k] == pre[..k];
      CodesStable(pre, k, x);
      assert ids[..|ids|] == ids;
    } else {
      assert ids[..k] == ids;
    }
  }

  /** A new identifier gets a larger code than every identifier before it. */
  lemma NewIdTopCode<T>(pre: seq<T>, x: T, y: T)
    requires x in pre && y !in pre
    ensures x in GenIdMap(pre + [y]) && y in GenIdMap(pre + [y])
    ensures GenIdMap(pre + [y])[x] < GenIdMap(pre + [y])[y]
  {
    KeysAreIds(pre);
    BuildInvariant(pre);
    assert (pre + [y])[..|pre|] == pre;
  }

  /** First-seen order: an identifier met before the first occurrence of another has a smaller code. */
  lemma FirstSeenOrder<T>(ids: seq<T>, i: nat, j: nat)
    requires i < j < |ids| && ids[j] !in ids[..j]
    ensures ids[i] in GenIdMap(ids) && ids[j] in GenIdMap(ids)
    ensures GenIdMap(ids)[ids[i]] < GenIdMap(ids)[ids[j]]
  {
    assert ids[..j + 1] == ids[..j] + [ids[j]];
    assert ids[i] in ids[..j];
    NewIdTopCode(ids[..j], ids[i], ids[j]);
    CodesStable(ids, j + 1, ids[i]);
    CodesStable(ids, j + 1, ids[j]);
  }

  /** A missing identifier reads as 0, and 0 is never a valid code. */
  lemma LookupZeroIffMissing<T>(ids: seq<T>, x: T)
    ensures Lookup(GenIdMap(ids), x) == 0 <==> x !in ids
    ensures x in ids ==> 1 <= Lookup(GenIdMap(ids), x) <= |Distinct(ids)|
  {
    KeysAreIds(ids);
    BuildInvariant(ids);
    CodesAreOneToN(ids);
  }

  /** The loop of `gen_id_map`, with its explicit counter. */
  method GenIdMapLoop<T(==)>(ids: seq<T>) returns (m: map<T, int>)
    ensures forall x :: x in m <==> x in ids
    ensures forall i, j :: 0 <= i < j < |ids| && ids[j] !in ids[..j] ==>
      ids[i] in m && ids[j] in m && m[ids[i]] < m[ids[j]]
    ensures m == GenIdMap(ids)
  {
    m := map[];
    var counter := 1;
    var i := 0;
    while i < |ids|
      invariant 0 <= i <= |ids|
      invariant Build(ids[..i]) == IdMap(m, counter)
    {
      assert ids[..i + 1][..i] == ids[..i];
      if ids[i] !in m {
        m := m[ids[i] := counter];
        counter := counter + 1;
      }
      i := i + 1;
    }
    assert ids[..i] == ids;
    KeysAreIds(ids);
    forall i, j | 0 <= i < j < |ids| && ids[j] !in ids[..j]
      ensures ids[i] in m && ids[j] in m && m[ids[i]] < m[ids[j]]
    {
      FirstSeenOrder(ids, i, j);
    }
  }

  /** Reading a `defaultdict(int)` inserts a missing key with value 0 as a side effect;
      the value read is the code, or 0 when there is none. */
  function DefaultGet<T(==)>(m: map<T, int>, x: T): (r: (int, map<T, int>))
    ensures r.0 == Lookup(m, x)
    ensures r.1.Keys == m.Keys + {x}
    ensures forall y :: y in r.1 ==> r.1[y] == Lookup(m, y)
  {
    if x in m then (m[x], m) else (0, m[x := 0])
  }

  /** Reading many keys in order from a `defaultdict(int)`, threading the side effects. */
  function ReadAll<T(==)>(m: map<T, int>, xs: seq<T>): (r: (seq<int>, map<T, int>))
    ensures |r.0| == |xs|
    decreases |xs|
  {
    if xs == [] then ([], m)
    else
      var (v, m') := DefaultGet(m, xs[0]);
      var (vs, m'') := ReadAll(m', xs[1..]);
      ([v] + vs, m'')
  }

  /** The inserted zeros never change what later reads return: threaded reads equal plain lookups. */
  lemma {:induction false} ReadAllIsLookup<T>(m0: map<T, int>, m: map<T, int>, xs: seq<T>)
    requires forall y :: y in m ==> m[y] == Lookup(m0, y)
    requires m0.Keys <= m.Keys
    ensures forall i :: 0 <= i < |xs| ==> ReadAll(m, xs).0[i] == Lookup(m0, xs[i])
    decreases |xs|
  {
    if xs != [] {
      var (v, m') := DefaultGet(m, xs[0]);
      ReadAllIsLookup(m0, m', xs[1..]);
      forall i | 0 <= i < |xs| ensures ReadAll(m, xs).0[i] == Lookup(m0, xs[i]) {
        if i > 0 {
          assert ReadAll(m, xs).0[i] == ReadAll(m', xs[1..]).0[i - 1];
        }
      }
    }
  }
}
