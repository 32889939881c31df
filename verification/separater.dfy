/**
 Column helpers of the cleaning step: fixed-band bucketing of age and income,
 one-hot channel columns, and the removal of a trailing ".0" from dummy column
 names.
 */
module Separater {
  import opened Digits

  // ---------------------------------------------------------------------------
  // Fixed-band bucketing

  /** The position of the first inclusive upper bound that `v` does not exceed,
      or `|uppers|` when `v` exceeds them all (the open-ended last band). */
  function BandIndex(v: real, uppers: seq<int>): (i: nat)
    ensures i <= |uppers|
    ensures forall j :: 0 <= j < i ==> v > uppers[j] as real
    ensures i < |uppers| ==> v <= uppers[i] as real
    decreases |uppers|
  {
    if uppers == [] then 0
    else if v <= uppers[0] as real then 0
    else 1 + BandIndex(v, uppers[1..])
  }

  /** The generic bucketizer: the label of the band `v` falls in. */
  function Bucketize(v: real, uppers: seq<int>, labels: seq<string>): (r: string)
    requires |labels| == |uppers| + 1
    ensures r in labels
  {
    labels[BandIndex(v, uppers)]
  }

  /** Upper bounds are strictly increasing. */
  ghost predicate Ascending(uppers: seq<int>) {
    forall i, j :: 0 <= i < j < |uppers| ==> uppers[i] < uppers[j]
  }

  /** A larger value never falls in an earlier band. */
  lemma BandIndexMonotone(v: real, w: real, uppers: seq<int>)
    requires v <= w
    ensures BandIndex(v, uppers) <= BandIndex(w, uppers)
  {
  }

  /** With ascending bounds, the band of `v` is the one whose half-open interval
      (previous bound, bound] contains it. */
  lemma BandIndexOfInterval(v: real, uppers: seq<int>, k: nat)
    requires Ascending(uppers) && k <= |uppers|
    requires k > 0 ==> v > uppers[k - 1] as real
    requires k < |uppers| ==> v <= uppers[k] as real
    ensures BandIndex(v, uppers) == k
  {
  }

  /** The rendering of the half-open interval (lo, hi], as the labels spell it. */
  function IntervalLabel(lo: nat, hi: nat): string {
    "(" + NatToString(lo) + ", " + NatToString(hi) + "]"
  }

  const AgeUppers: seq<int> := [20, 30, 40, 50, 60, 70, 80, 90, 100]

  const AgeLabels: seq<string> := [
    "(0, 20]", "(20, 30]", "(30, 40]", "(40, 50]", "(50, 60]",
    "(60, 70]", "(70, 80]", "(80, 90]", "(90, 100]", "(100, 120]"]

  const IncomeUppers: seq<int> := [30000, 40000, 50000, 60000, 70000, 80000, 90000, 100000, 110000]

  const IncomeLabels: seq<string> := [
    "(0, 30000]", "(30000, 40000]", "(40000, 50000]", "(50000, 60000]",
    "(60000, 70000]", "(70000, 80000]", "(80000, 90000]", "(90000, 100000]",
    "(100000, 110000]", "(110000, 120000]"]

  /** `get_age_segment`: upper bounds are inclusive, ages up to 20 share the
      first band and every age above 100 falls in the last one. */
  function AgeSegment(age: real): (r: string)
    ensures r in AgeLabels
  {
    if age <= 20.0 then "(0, 20]"
    else if 20.0 < age <= 30.0 then "(20, 30]"
    else if 30.0 < age <= 40.0 then "(30, 40]"
    else if 40.0 < age <= 50.0 then "(40, 50]"
    else if 50.0 < age <= 60.0 then "(50, 60]"
    else if 60.0 < age <= 70.0 then "(60, 70]"
    else if 70.0 < age <= 80.0 then "(70, 80]"
    else if 80.0 < age <= 90.0 then "(80, 90]"
    else if 90.0 < age <= 100.0 then "(90, 100]"
    else "(100, 120]"
  }

  /** `get_income_segment`: the same scheme with bands of 10000 from 30000 to 110000. */
  function IncomeSegment(income: real): (r: string)
    ensures r in IncomeLabels
  {
    if income <= 30000.0 then "(0, 30000]"
    else if 30000.0 < income <= 40000.0 then "(30000, 40000]"
    else if 40000.0 < income <= 50000.0 then "(40000, 50000]"
    else if 50000.0 < income <= 60000.0 then "(50000, 60000]"
    else if 60000.0 < income <= 70000.0 then "(60000, 70000]"
    else if 70000.0 < income <= 80000.0 then "(70000, 80000]"
    else if 80000.0 < income <= 90000.0 then "(80000, 90000]"
    else if 90000.0 < income <= 100000.0 then "(90000, 100000]"
    else if 100000.0 < income <= 110000.0 then "(100000, 110000]"
    else "(110000, 120000]"
  }

  lemma StepsGrow(step: nat, i: nat, j: nat)
    requires step > 0 && i < j
    ensures step * i < step * j
  {
    assert step * j == step * i + step * (j - i);
  }

  /** The band of `v` under a table whose bounds are `base`, `base + step`, ... */
  lemma ArithmeticBand(v: real, uppers: seq<int>, base: int, step: nat, k: nat)
    requires step > 0
    requires forall j :: 0 <= j < |uppers| ==> uppers[j] == base + step * j
    requires k <= |uppers|
    requires k > 0 ==> v > (base + step * (k - 1)) as real
    requires k < |uppers| ==> v <= (base + step * k) as real
    ensures BandIndex(v, uppers) == k
  {
    forall i, j | 0 <= i < j < |uppers| ensures uppers[i] < uppers[j] {
      StepsGrow(step, i, j);
    }
    if k > 0 {
      assert uppers[k - 1] == base + step * (k - 1);
    }
    if k < |uppers| {
      assert uppers[k] == base + step * k;
    }
    BandIndexOfInterval(v, uppers, k);
  }

  /** The band of an age: the number of bounds it exceeds. */
  function AgeBand(age: real): (k: nat)
    ensures k < |AgeLabels|
    ensures k > 0 ==> age > (10 + 10 * k) as real
    ensures k < |AgeUppers| ==> age <= (20 + 10 * k) as real
  {
    if age <= 20.0 then 0
    else if age <= 30.0 then 1
    else if age <= 40.0 then 2
    else if age <= 50.0 then 3
    else if age <= 60.0 then 4
    else if age <= 70.0 then 5
    else if age <= 80.0 then 6
    else if age <= 90.0 then 7
    else if age <= 100.0 then 8
    else 9
  }

  lemma AgeSegmentByBand(age: real)
    ensures AgeSegment(age) == AgeLabels[AgeBand(age)]
  {
  }

  /** The age branches are the generic bucketizer over the age table. */
  lemma AgeSegmentIsBucketize(age: real)
    ensures AgeSegment(age) == Bucketize(age, AgeUppers, AgeLabels)
  {
    var k := AgeBand(age);
    ArithmeticBand(age, AgeUppers, 20, 10, k);
    AgeSegmentByBand(age);
  }

  /** A single digit renders as itself. */
  lemma OneDigit(d: nat)
    requires d < 10
    ensures NatToString(d) == [DigitChar(d)]
  {
  }

  /** A two-digit number renders as its two digits. */
  lemma TwoDigits(n: nat)
    requires 10 <= n < 100
    ensures NatToString(n) == [DigitChar(n / 10), DigitChar(n % 10)]
  {
    OneDigit(n / 10);
  }

  /** The label of a band whose bounds are multiples of ten, spelled from the tens. */
  lemma TensLabel(a: nat, b: nat)
    requires a >= 1 && b >= 1
    ensures IntervalLabel(10 * a, 10 * b) == "(" + NatToString(a) + "0, " + NatToString(b) + "0]"
  {
    NatToStringTimesTen(a);
    NatToStringTimesTen(b);
  }

  /** The label (a0, b0] for digits a and b, character by character. */
  lemma SpellTens(a: char, b: char)
    ensures "(" + [a] + "0, " + [b] + "0]" == ['(', a, '0', ',', ' ', b, '0', ']']
  {
  }

  /** The label (a0, bc0] for digits a, b and c, character by character. */
  lemma SpellTensWide(a: char, b: char, c: char)
    ensures "(" + [a] + "0, " + [b, c] + "0]" == ['(', a, '0', ',', ' ', b, c, '0', ']']
  {
  }

  /** The label (a0000, b0000] for digits a and b, character by character. */
  lemma SpellTenThousands(a: char, b: char)
    ensures "(" + [a] + "0000, " + [b] + "0000]" == ['(', a, '0', '0', '0', '0', ',', ' ', b, '0', '0', '0', '0', ']']
  {
  }

  /** The label (a0000, bc0000] for digits a, b and c, character by character. */
  lemma SpellTenThousandsWide(a: char, b: char, c: char)
    ensures "(" + [a] + "0000, " + [b, c] + "0000]" == ['(', a, '0', '0', '0', '0', ',', ' ', b, c, '0', '0', '0', '0', ']']
  {
  }

  /** The label (ab0000, cd0000] for digits a, b, c and d, character by character. */
  lemma SpellTenThousandsWider(a: char, b: char, c: char, d: char)
    ensures "(" + [a, b] + "0000, " + [c, d] + "0000]" == ['(', a, b, '0', '0', '0', '0', ',', ' ', c, d, '0', '0', '0', '0', ']']
  {
  }

  /** The first age label is (0, 20]. */
  lemma AgeLabelLowest()
    ensures AgeLabels[0] == IntervalLabel(0, 20)
  {
    var k: nat := 2;
    NatToStringTimesTen(k);
    OneDigit(0);
    OneDigit(k);
    assert IntervalLabel(0, 10 * k) == ['(', DigitChar(0), ',', ' ', DigitChar(k), '0', ']'];
    assert AgeLabels[0] == "(0, 20]";
  }

  /** The last age label is (100, 120]. */
  lemma AgeLabelHighest()
    ensures AgeLabels[9] == IntervalLabel(100, 120)
  {
    var k: nat := 10;
    var twelve := 12;
    assert 10 * k + 20 == 10 * twelve;
    TensLabel(k, twelve);
    TwoDigits(k);
    TwoDigits(twelve);
    assert IntervalLabel(10 * k, 10 * k + 20)
      == ['(', DigitChar(1), DigitChar(0), '0', ',', ' ', DigitChar(1), DigitChar(2), '0', ']'];
    assert AgeLabels[9] == "(100, 120]";
  }

  /** Ages up to 20 and ages above 100 fall in the two end bands. */
  lemma AgeSegmentEnds(age: real)
    ensures age <= 20.0 ==> AgeSegment(age) == IntervalLabel(0, 20)
    ensures age > 100.0 ==> AgeSegment(age) == IntervalLabel(100, 120)
  {
    AgeSegmentByBand(age);
    AgeLabelLowest();
    AgeLabelHighest();
  }

  /** The label of a decade (10k, 10k + 10] with single-digit k and k + 1, character by character. */
  lemma DecadeLabel(k: nat)
    requires 1 <= k <= 8
    ensures IntervalLabel(10 * k, 10 * k + 10) == ['(', DigitChar(k), '0', ',', ' ', DigitChar(k + 1), '0', ']']
  {
    assert 10 * k + 10 == 10 * (k + 1);
    TensLabel(k, k + 1);
    OneDigit(k);
    OneDigit(k + 1);
    SpellTens(DigitChar(k), DigitChar(k + 1));
  }

  /** The age band labels spell the interval (10k, 10k + 10] of the decade they cover. */
  lemma AgeLabelsRendered(k: nat)
    requires 2 <= k <= 9
    ensures AgeLabels[k - 1] == IntervalLabel(10 * k, 10 * k + 10)
  {
    if k < 9 {
      DecadeLabel(k);
      if k == 2 { assert AgeLabels[k - 1] == "(20, 30]"; }
      else if k == 3 { assert AgeLabels[k - 1] == "(30, 40]"; }
      else if k == 4 { assert AgeLabels[k - 1] == "(40, 50]"; }
      else if k == 5 { assert AgeLabels[k - 1] == "(50, 60]"; }
      else if k == 6 { assert AgeLabels[k - 1] == "(60, 70]"; }
      else if k == 7 { assert AgeLabels[k - 1] == "(70, 80]"; }
      else { assert AgeLabels[k - 1] == "(80, 90]"; }
    } else {
      var nine, ten := 9, 10;
      TensLabel(nine, ten);
      OneDigit(nine);
      TwoDigits(ten);
      SpellTensWide(DigitChar(nine), DigitChar(1), DigitChar(0));
      assert AgeLabels[k - 1] == "(90, 100]";
    }
  }

  /** An age in (10k, 10k + 10], for 2 <= k <= 9, is labelled with exactly that interval. */
  lemma AgeSegmentDecade(age: real, k: nat)
    requires 2 <= k <= 9
    requires (10 * k) as real < age <= (10 * k + 10) as real
    ensures AgeSegment(age) == IntervalLabel(10 * k, 10 * k + 10)
  {
    AgeSegmentByBand(age);
    assert AgeBand(age) == k - 1;
    AgeLabelsRendered(k);
  }

  /** Band labels are pairwise distinct, so a label determines its band. */
  lemma LabelsDistinct(labels: seq<string>, i: nat, j: nat)
    requires labels == AgeLabels || labels == IncomeLabels
    requires i < |labels| && j < |labels| && labels[i] == labels[j]
    ensures i == j
  {
  }

  /** An older customer never gets an earlier age band. */
  lemma AgeSegmentMonotone(a: real, b: real, i: nat, j: nat)
    requires a <= b
    requires i < |AgeLabels| && j < |AgeLabels|
    requires AgeSegment(a) == AgeLabels[i] && AgeSegment(b) == AgeLabels[j]
    ensures i <= j
  {
    AgeSegmentByBand(a);
    AgeSegmentByBand(b);
    LabelsDistinct(AgeLabels, i, AgeBand(a));
    LabelsDistinct(AgeLabels, j, AgeBand(b));
  }

  /** The band of an income: the number of bounds it exceeds. */
  function IncomeBand(income: real): (k: nat)
    ensures k < |IncomeLabels|
    ensures k > 0 ==> income > (20000 + 10000 * k) as real
    ensures k < |IncomeUppers| ==> income <= (30000 + 10000 * k) as real
  {
    if income <= 30000.0 then 0
    else if income <= 40000.0 then 1
    else if income <= 50000.0 then 2
    else if income <= 60000.0 then 3
    else if income <= 70000.0 then 4
    else if income <= 80000.0 then 5
    else if income <= 90000.0 then 6
    else if income <= 100000.0 then 7
    else if income <= 110000.0 then 8
    else 9
  }

  lemma IncomeSegmentByBand(income: real)
    ensures IncomeSegment(income) == IncomeLabels[IncomeBand(income)]
  {
  }

  /** The income branches are the generic bucketizer over the income table. */
  lemma IncomeSegmentIsBucketize(income: real)
    ensures IncomeSegment(income) == Bucketize(income, IncomeUppers, IncomeLabels)
  {
    var k := IncomeBand(income);
    ArithmeticBand(income, IncomeUppers, 30000, 10000, k);
    IncomeSegmentByBand(income);
  }

  /** The label of a band whose bounds are multiples of 10000, spelled from the ten-thousands. */
  lemma TenThousandsLabel(a: nat, b: nat)
    requires a >= 1 && b >= 1
    ensures IntervalLabel(10000 * a, 10000 * b) == "(" + NatToString(a) + "0000, " + NatToString(b) + "0000]"
  {
    NatToStringTimesTenThousand(a);
    NatToStringTimesTenThousand(b);
  }

  /** The label (10000a, 10000b] for two-digit a and b, character by character. */
  lemma WiderTenThousandsLabel(a: nat, b: nat)
    requires 10 <= a < 100 && 10 <= b < 100
    ensures IntervalLabel(10000 * a, 10000 * b)
      == ['(', DigitChar(a / 10), DigitChar(a % 10), '0', '0', '0', '0', ',', ' ', DigitChar(b / 10), DigitChar(b % 10), '0', '0', '0', '0', ']']
  {
    TenThousandsLabel(a, b);
    TwoDigits(a);
    TwoDigits(b);
    SpellTenThousandsWider(DigitChar(a / 10), DigitChar(a % 10), DigitChar(b / 10), DigitChar(b % 10));
  }

  /** The first income label is (0, 30000]. */
  lemma IncomeLabelLowest()
    ensures IncomeLabels[0] == IntervalLabel(0, 30000)
  {
    var k: nat := 3;
    NatToStringTimesTenThousand(k);
    OneDigit(0);
    OneDigit(k);
    assert IntervalLabel(0, 10000 * k) == ['(', DigitChar(0), ',', ' ', DigitChar(k), '0', '0', '0', '0', ']'];
    assert IncomeLabels[0] == "(0, 30000]";
  }

  /** The last income label is (110000, 120000]. */
  lemma IncomeLabelHighest()
    ensures IncomeLabels[9] == IntervalLabel(110000, 120000)
  {
    WiderTenThousandsLabel(11, 12);
    assert IncomeLabels[9] == "(110000, 120000]";
  }

  /** Incomes up to 30000 and incomes above 110000 fall in the two end bands. */
  lemma IncomeSegmentEnds(income: real)
    ensures income <= 30000.0 ==> IncomeSegment(income) == IntervalLabel(0, 30000)
    ensures income > 110000.0 ==> IncomeSegment(income) == IntervalLabel(110000, 120000)
  {
    IncomeSegmentByBand(income);
    IncomeLabelLowest();
    IncomeLabelHighest();
  }

  /** The label (10000k, 10000k + 10000] with single-digit k and k + 1, character by character. */
  lemma TenThousandsBandLabel(k: nat)
    requires 1 <= k <= 8
    ensures IntervalLabel(10000 * k, 10000 * k + 10000)
      == ['(', DigitChar(k), '0', '0', '0', '0', ',', ' ', DigitChar(k + 1), '0', '0', '0', '0', ']']
  {
    assert 10000 * k + 10000 == 10000 * (k + 1);
    TenThousandsLabel(k, k + 1);
    OneDigit(k);
    OneDigit(k + 1);
    SpellTenThousands(DigitChar(k), DigitChar(k + 1));
  }

  /** The income band labels spell the interval (10000k, 10000k + 10000] they cover. */
  lemma IncomeLabelsRendered(k: nat)
    requires 3 <= k <= 10
    ensures IncomeLabels[k - 2] == IntervalLabel(10000 * k, 10000 * k + 10000)
  {
    if k < 9 {
      IncomeLabelsRenderedLow(k);
    } else {
      IncomeLabelsRenderedTop(k);
    }
  }

  /** The bands of `IncomeLabelsRendered` whose bounds have five digits. */
  lemma IncomeLabelsRenderedLow(k: nat)
    requires 3 <= k <= 8
    ensures IncomeLabels[k - 2] == IntervalLabel(10000 * k, 10000 * k + 10000)
  {
    TenThousandsBandLabel(k);
    if k == 3 { assert IncomeLabels[k - 2] == "(30000, 40000]"; }
    else if k == 4 { assert IncomeLabels[k - 2] == "(40000, 50000]"; }
    else if k == 5 { assert IncomeLabels[k - 2] == "(50000, 60000]"; }
    else if k == 6 { assert IncomeLabels[k - 2] == "(60000, 70000]"; }
    else if k == 7 { assert IncomeLabels[k - 2] == "(70000, 80000]"; }
    else { assert IncomeLabels[k - 2] == "(80000, 90000]"; }
  }


  /** The two top bands of `IncomeLabelsRendered`, whose upper bounds have six digits. */
  lemma IncomeLabelsRenderedTop(k: nat)
    requires 9 <= k <= 10
    ensures IncomeLabels[k - 2] == IntervalLabel(10000 * k, 10000 * k + 10000)
  {
    if k == 9 {
      IncomeLabelNinety();
      assert 10000 * k == 90000 && 10000 * k + 10000 == 100000;
    } else {
      IncomeLabelHundred();
      assert 10000 * k == 100000 && 10000 * k + 10000 == 110000;
    }
  }

  /** The band (90000, 100000]. */
  lemma IncomeLabelNinety()
    ensures IncomeLabels[7] == IntervalLabel(90000, 100000)
  {
    var k: nat := 9;
    var ten := 10;
    assert 10000 * k + 10000 == 10000 * ten;
    TenThousandsLabel(k, ten);
    OneDigit(k);
    TwoDigits(ten);
    SpellTenThousandsWide(DigitChar(k), DigitChar(1), DigitChar(0));
    assert IncomeLabels[k - 2] == "(90000, 100000]";
  }

  /** The band (100000, 110000]. */
  lemma IncomeLabelHundred()
    ensures IncomeLabels[8] == IntervalLabel(100000, 110000)
  {
    WiderTenThousandsLabel(10, 11);
    assert IncomeLabels[8] == "(100000, 110000]";
  }

  /** An income in (10000k, 10000k + 10000], for 3 <= k <= 10, is labelled with exactly that interval. */
  lemma IncomeSegmentBand(income: real, k: nat)
    requires 3 <= k <= 10
    requires (10000 * k) as real < income <= (10000 * k + 10000) as real
    ensures IncomeSegment(income) == IntervalLabel(10000 * k, 10000 * k + 10000)
  {
    IncomeSegmentByBand(income);
    assert IncomeBand(income) == k - 2;
    IncomeLabelsRendered(k);
  }

  /** A higher income never gets an earlier income band. */
  lemma IncomeSegmentMonotone(a: real, b: real, i: nat, j: nat)
    requires a <= b
    requires i < |IncomeLabels| && j < |IncomeLabels|
    requires IncomeSegment(a) == IncomeLabels[i] && IncomeSegment(b) == IncomeLabels[j]
    ensures i <= j
  {
    IncomeSegmentByBand(a);
    IncomeSegmentByBand(b);
    LabelsDistinct(IncomeLabels, i, IncomeBand(a));
    LabelsDistinct(IncomeLabels, j, IncomeBand(b));
  }

  // ---------------------------------------------------------------------------
  // Channel columns

  /** Python's ordering of strings: lexicographic by character code. */
  predicate LexLe(a: string, b: string)
    decreases |a|
  {
    if a == [] then true
    else if b == [] then false
    else if a[0] != b[0] then a[0] < b[0]
    else LexLe(a[1..], b[1..])
  }

  /** Any two strings are ordered one way or the other. */
  lemma {:induction false} LexLeTotal(a: string, b: string)
    ensures LexLe(a, b) || LexLe(b, a)
    decreases |a|
  {
    if a != [] && b != [] && a[0] == b[0] {
      LexLeTotal(a[1..], b[1..]);
    }
  }

  /** Strings ordered both ways are equal. */
  lemma {:induction false} LexLeAntisymmetric(a: string, b: string)
    requires LexLe(a, b) && LexLe(b, a)
    ensures a == b
    decreases |a|
  {
    if a != [] {
      LexLeAntisymmetric(a[1..], b[1..]);
      assert a == [a[0]] + a[1..] && b == [b[0]] + b[1..];
    }
  }

  /** Each string is at most its successor. */
  ghost predicate Sorted(s: seq<string>) {
    forall i :: 0 <= i < |s| - 1 ==> LexLe(s[i], s[i + 1])
  }

  /** Inserts `x` before the first element that it precedes. */
  function InsertSorted(x: string, s: seq<string>): (r: seq<string>)
    requires Sorted(s)
    ensures Sorted(r) && |r| == |s| + 1
    ensures r[0] == x || (s != [] && r[0] == s[0])
    decreases |s|
  {
    if s == [] then [x]
    else if LexLe(x, s[0]) then [x] + s
    else
      LexLeTotal(x, s[0]);
      [s[0]] + InsertSorted(x, s[1..])
  }

  /** Inserting adds `x` and loses nothing. */
  lemma {:induction false} InsertSortedPermutes(x: string, s: seq<string>)
    requires Sorted(s)
    ensures multiset(InsertSorted(x, s)) == multiset(s) + multiset{x}
    decreases |s|
  {
    if s != [] && !LexLe(x, s[0]) {
      InsertSortedPermutes(x, s[1..]);
      assert s == [s[0]] + s[1..];
    }
  }

  /** `list.sort()` on strings: an ascending permutation of the input. */
  function SortStrings(s: seq<string>): (r: seq<string>)
    ensures Sorted(r)
    ensures multiset(r) == multiset(s)
    decreases |s|
  {
    if s == [] then []
    else
      assert s == s[..|s| - 1] + [s[|s| - 1]];
      InsertSortedPermutes(s[|s| - 1], SortStrings(s[..|s| - 1]));
      InsertSorted(s[|s| - 1], SortStrings(s[..|s| - 1]))
  }

  /** A named one-hot column of the channel frame. */
  datatype Column = Column(name: string, cells: seq<int>)

  /** The cell for one row: 1 when the channel is in that row's list, else 0. */
  function Indicator(t: string, row: seq<string>): int {
    if t in row then 1 else 0
  }

  /** The column of channel `t`, named `prefix_t`. */
  function ChannelColumn(rows: seq<seq<string>>, prefix: string, t: string): (c: Column)
    ensures |c.cells| == |rows|
  {
    Column(prefix + "_" + t, seq(|rows|, r requires 0 <= r < |rows| => Indicator(t, rows[r])))
  }

  /** `df[name] = column`: replaces a column of that name, or appends a new one. */
  function SetColumn(cols: seq<Column>, c: Column): (r: seq<Column>)
    ensures (exists i :: 0 <= i < |cols| && cols[i].name == c.name) ==> |r| == |cols|
    ensures (forall i :: 0 <= i < |cols| ==> cols[i].name != c.name) ==> r == cols + [c]
    decreases |cols|
  {
    if cols == [] then [c]
    else if cols[0].name == c.name then [c] + cols[1..]
    else [cols[0]] + SetColumn(cols[1..], c)
  }

  /** The frame after assigning the columns of `types`, in order. */
  function ChannelColumns(rows: seq<seq<string>>, types: seq<string>, prefix: string): seq<Column>
    decreases |types|
  {
    if types == [] then []
    else SetColumn(ChannelColumns(rows, types[..|types| - 1], prefix), ChannelColumn(rows, prefix, types[|types| - 1]))
  }

  /** `separate_channels_col`: sorts `types` (the caller sees the sorted list) and
      builds one indicator column per type. */
  function SeparateChannels(rows: seq<seq<string>>, types: seq<string>, prefix: string): (r: (seq<string>, seq<Column>))
    ensures Sorted(r.0) && multiset(r.0) == multiset(types)
  {
    var sorted := SortStrings(types);
    (sorted, ChannelColumns(rows, sorted, prefix))
  }

  /** No string occurs twice. */
  ghost predicate NoDuplicates(s: seq<string>) {
    forall i, j :: 0 <= i < j < |s| ==> s[i] != s[j]
  }

  lemma NoDuplicatesMultiset(s: seq<string>, t: seq<string>)
    requires multiset(s) == multiset(t) && NoDuplicates(s)
    ensures NoDuplicates(t)
  {
    forall i, j | 0 <= i < j < |t| ensures t[i] != t[j] {
      if t[i] == t[j] {
        assert t == t[..i] + [t[i]] + t[i + 1..j] + [t[j]] + t[j + 1..];
        assert multiset(t)[t[i]] >= 2;
        DuplicateWitness(s, t[i]);
      }
    }
  }

  /** A string occurring at most once in a duplicate-free sequence. */
  lemma {:induction false} DuplicateWitness(s: seq<string>, x: string)
    requires NoDuplicates(s)
    ensures multiset(s)[x] <= 1
    decreases |s|
  {
    if s != [] {
      var pre := s[..|s| - 1];
      assert s == pre + [s[|s| - 1]];
      DuplicateWitness(pre, x);
      if s[|s| - 1] == x {
        assert x !in pre;
      }
    }
  }

  /** Column names `prefix_t` of distinct channels are distinct. */
  lemma ColumnNamesInjective(prefix: string, a: string, b: string)
    requires prefix + "_" + a == prefix + "_" + b
    ensures a == b
  {
    assert a == (prefix + "_" + a)[|prefix| + 1..];
    assert b == (prefix + "_" + b)[|prefix| + 1..];
  }

  /** With distinct channel types, the frame has exactly one column per sorted type,
      in that order, holding 1 exactly in the rows whose list contains the type. */
  lemma {:induction false} ChannelColumnsExact(rows: seq<seq<string>>, types: seq<string>, prefix: string)
    requires NoDuplicates(types)
    ensures |ChannelColumns(rows, types, prefix)| == |types|
    ensures forall i :: 0 <= i < |types| ==> ChannelColumns(rows, types, prefix)[i] == ChannelColumn(rows, prefix, types[i])
    decreases |types|
  {
    if types != [] {
      var pre := types[..|types| - 1];
      var t := types[|types| - 1];
      ChannelColumnsExact(rows, pre, prefix);
      var cols := ChannelColumns(rows, pre, prefix);
      forall i | 0 <= i < |cols| ensures cols[i].name != prefix + "_" + t {
        if cols[i].name == prefix + "_" + t {
          ColumnNamesInjective(prefix, pre[i], t);
        }
      }
    }
  }

  /** `separate_channels_col` on distinct types: the sorted types, and for each the
      column `prefix_t` whose cell in row r is 1 exactly when t is in row r's list. */
  lemma SeparateChannelsExact(rows: seq<seq<string>>, types: seq<string>, prefix: string)
    requires NoDuplicates(types)
    ensures var (sorted, cols) := SeparateChannels(rows, types, prefix);
      && |sorted| == |cols| == |types|
      && forall i :: 0 <= i < |cols| ==>
           && cols[i].name == prefix + "_" + sorted[i]
           && |cols[i].cells| == |rows|
           && forall r :: 0 <= r < |rows| ==> (cols[i].cells[r] == 1 <==> sorted[i] in rows[r])
  {
    var sorted := SortStrings(types);
    NoDuplicatesMultiset(types, sorted);
    assert |sorted| == |multiset(sorted)| == |multiset(types)| == |types|;
    ChannelColumnsExact(rows, sorted, prefix);
  }

  // ---------------------------------------------------------------------------
  // Dummy column names

  predicate EndsWithDotZero(name: string) {
    |name| >= 2 && name[|name| - 2..] == ".0"
  }

  /** The renaming loop of `separate_reg_year_col` and `separate_reg_month_col`:
      a trailing ".0" is dropped, any other name is kept. */
  function StripDotZero(name: string): (r: string)
    ensures EndsWithDotZero(name) ==> r + ".0" == name
    ensures !EndsWithDotZero(name) ==> r == name
  {
    if EndsWithDotZero(name) then name[..|name| - 2] else name
  }

  /** The suffix is removed exactly once: a name with ".0" appended comes back unchanged,
      even when it already ended in ".0" itself. */
  lemma StripDotZeroOnce(name: string)
    ensures StripDotZero(name + ".0") == name
  {
    assert (name + ".0")[|name + ".0"| - 2..] == ".0";
    assert (name + ".0")[..|name|] == name;
  }

  /** The renamed column list: same length, each name stripped. */
  function StripColumnNames(names: seq<string>): (r: seq<string>)
    ensures |r| == |names|
    ensures forall i :: 0 <= i < |names| ==> r[i] == StripDotZero(names[i])
    decreases |names|
  {
    if names == [] then [] else [StripDotZero(names[0])] + StripColumnNames(names[1..])
  }
}
