/**
 The cleaning step for the transcript and profile tables: each raw event row is
 flattened into one `Event`, and each profile row gets its dense id, its
 missing-value handling and its registration year and month.
 */
module Cleaner {
  import opened Wrappers
  import opened Digits
  import opened Events
  import Generator

  // ---------------------------------------------------------------------------
  // Transcript

  /** The attachment map `value` of a raw transcript row, reduced to the four keys
      the cleaner reads: "offer_id", "offer id", "amount" and "reward". */
  datatype Payload = Payload(
    offerIdKey: Option<string>,
    offerIdSpacedKey: Option<string>,
    amount: Option<real>,
    reward: Option<real>)

  /** A raw transcript row: customer id, event label, attachment and time. */
  datatype RawEvent = RawEvent(person: string, event: string, value: Payload, time: int)

  /** `extract_offer_id_from_value`: the "offer_id" spelling wins over "offer id";
      with neither key the row carries the string "0". */
  function ExtractOfferId(value: Payload): (r: string)
    ensures r == "0" || Some(r) == value.offerIdKey || Some(r) == value.offerIdSpacedKey
    ensures value.offerIdKey.Some? ==> Some(r) == value.offerIdKey
    ensures value.offerIdKey.None? && value.offerIdSpacedKey.Some? ==> Some(r) == value.offerIdSpacedKey
    ensures value.offerIdKey.None? && value.offerIdSpacedKey.None? ==> r == "0"
  {
    if value.offerIdKey.Some? then value.offerIdKey.value
    else if value.offerIdSpacedKey.Some? then value.offerIdSpacedKey.value
    else "0"
  }

  /** The offer id column: the string "0" becomes 0 without consulting the map;
      any other string reads the `defaultdict`, so an unknown id becomes 0 too. */
  function RemapOfferId(offerMap: map<string, int>, offerIdText: string): (r: int)
    ensures offerIdText == "0" || offerIdText !in offerMap ==> r == 0
    ensures offerIdText != "0" && offerIdText in offerMap ==> r == offerMap[offerIdText]
  {
    if offerIdText != "0" then Generator.Lookup(offerMap, offerIdText) else 0
  }

  /** The cleaned row at 0-based position `i` of the transcript. */
  function CleanRow(raw: RawEvent, i: nat, offerMap: map<string, int>, profileMap: map<string, int>): (e: Event)
    ensures e.eventId == i + 1 && e.time == raw.time
    ensures KindLabel(e.kind) == raw.event && Canonical(e.kind)
    ensures e.amount == raw.value.amount.GetOr(0.0) && e.reward == raw.value.reward.GetOr(0.0)
    ensures e.profileId == Generator.Lookup(profileMap, raw.person)
    ensures e.offerId == RemapOfferId(offerMap, ExtractOfferId(raw.value))
  {
    Event(
      i + 1,
      KindOf(raw.event),
      raw.value.amount.GetOr(0.0),
      raw.value.reward.GetOr(0.0),
      raw.time,
      Generator.Lookup(profileMap, raw.person),
      RemapOfferId(offerMap, ExtractOfferId(raw.value)))
  }

  /** `clean_transcript_df`: one cleaned row per raw row, in input order, numbered from 1. */
  function CleanTranscript(raws: seq<RawEvent>, offerMap: map<string, int>, profileMap: map<string, int>): (r: seq<Event>)
    ensures |r| == |raws|
    ensures forall i :: 0 <= i < |r| ==> r[i].eventId == i + 1 && r[i].time == raws[i].time
    ensures forall i :: 0 <= i < |r| ==> KindLabel(r[i].kind) == raws[i].event && Canonical(r[i].kind)
  {
    seq(|raws|, i requires 0 <= i < |raws| => CleanRow(raws[i], i, offerMap, profileMap))
  }

  /** With maps built by `gen_id_map`, the offer id of a cleaned row is 0 exactly when the
      row names no offer, names the offer "0", or names an offer outside the portfolio;
      otherwise it is that offer's code. */
  lemma CleanedOfferId(raws: seq<RawEvent>, offerIds: seq<string>, profileIds: seq<string>, i: nat)
    requires i < |raws|
    ensures var e := CleanTranscript(raws, Generator.GenIdMap(offerIds), Generator.GenIdMap(profileIds))[i];
      var text := ExtractOfferId(raws[i].value);
      && (e.offerId == 0 <==> text == "0" || text !in offerIds)
      && (text != "0" && text in offerIds ==> e.offerId == Generator.GenIdMap(offerIds)[text])
      && (raws[i].value.offerIdKey.None? && raws[i].value.offerIdSpacedKey.None? ==> e.offerId == 0)
  {
    Generator.LookupZeroIffMissing(offerIds, ExtractOfferId(raws[i].value));
    Generator.KeysAreIds(offerIds);
  }

  /** The key precedence of `extract_offer_id_from_value`: "offer_id" is read whenever it is
      present, "offer id" only in its absence, and "0" when both are absent. */
  lemma ExtractOfferIdPrecedence(value: Payload, other: string)
    ensures value.offerIdKey.Some? ==>
      ExtractOfferId(value.(offerIdSpacedKey := Some(other))) == value.offerIdKey.value
    ensures value.offerIdKey.None? ==>
      ExtractOfferId(value.(offerIdSpacedKey := Some(other))) == other
    ensures ExtractOfferId(value.(offerIdKey := None, offerIdSpacedKey := None)) == "0"
  {
  }

  /** The customer id of a cleaned row is the customer's code, 0 for an unknown customer. */
  lemma CleanedProfileId(raws: seq<RawEvent>, offerIds: seq<string>, profileIds: seq<string>, i: nat)
    requires i < |raws|
    ensures var e := CleanTranscript(raws, Generator.GenIdMap(offerIds), Generator.GenIdMap(profileIds))[i];
      && (e.profileId == 0 <==> raws[i].person !in profileIds)
      && (raws[i].person in profileIds ==> 1 <= e.profileId <= |Generator.Distinct(profileIds)|)
  {
    Generator.LookupZeroIffMissing(profileIds, raws[i].person);
  }

  /** Amount and reward default to 0 when the attachment lacks them. */
  lemma CleanedAmounts(raws: seq<RawEvent>, offerMap: map<string, int>, profileMap: map<string, int>, i: nat)
    requires i < |raws|
    ensures var e := CleanTranscript(raws, offerMap, profileMap)[i];
      && (raws[i].value.amount.None? ==> e.amount == 0.0)
      && (raws[i].value.amount.Some? ==> e.amount == raws[i].value.amount.value)
      && (raws[i].value.reward.None? ==> e.reward == 0.0)
      && (raws[i].value.reward.Some? ==> e.reward == raws[i].value.reward.value)
  {
  }

  /** Every offer id a cleaned row can carry is non-negative: codes start at 1 and the
      sentinel is 0. The response step relies on this to see transactions first. */
  lemma CleanedOfferIdsNonNegative(raws: seq<RawEvent>, offerIds: seq<string>, profileMap: map<string, int>)
    ensures forall e :: e in CleanTranscript(raws, Generator.GenIdMap(offerIds), profileMap) ==> e.offerId >= 0
  {
    Generator.BuildInvariant(offerIds);
  }

  /** Rows are cleaned independently: cleaning a concatenation cleans each part, the
      second part's event ids continuing after the first's. */
  lemma CleanTranscriptAppend(a: seq<RawEvent>, b: seq<RawEvent>, offerMap: map<string, int>, profileMap: map<string, int>)
    ensures CleanTranscript(a + b, offerMap, profileMap)
      == CleanTranscript(a, offerMap, profileMap)
       + seq(|b|, j requires 0 <= j < |b| => CleanTranscript(b, offerMap, profileMap)[j].(eventId := |a| + j + 1))
  {
  }

  // ---------------------------------------------------------------------------
  // Profile

  /** A raw profile row; a missing gender or income is `None`, a missing age is 118. */
  datatype ProfileRow = ProfileRow(id: string, gender: Option<string>, age: int, income: Option<real>, becameMemberOn: nat)

  /** A cleaned profile row. In fill mode the age 118 becomes `None` (still to be back-filled). */
  datatype CleanProfileRow = CleanProfileRow(
    profileId: int,
    gender: Option<string>,
    age: Option<int>,
    income: Option<real>,
    regYear: int,
    regMonth: int)

  const MissingAge := 118

  /** A date renders to at most four digits exactly when it is below 10000. */
  lemma ShortDate(d: nat)
    ensures |NatToString(d)| <= 4 <==> d < 10000
  {
    var s := NatToString(d);
    ParseNatToString(d);
    ParseDigitsBound(s);
    if d < 10 {
      NatToStringLength(d, 1);
    } else if d < 100 {
      NatToStringLength(d, 2);
    } else if d < 1000 {
      NatToStringLength(d, 3);
    } else if d < 10000 {
      NatToStringLength(d, 4);
    } else if |s| <= 4 {
      Pow10Monotone(|s|, 4);
    }
  }

  /** `int(str(d)[0:4])` and `int(str(d)[4:6])`; `None` when the second slice is empty,
      which makes `int('')` raise. */
  function SplitMemberDate(d: nat): (r: Option<(int, int)>)
    ensures r.None? <==> d < 10000
  {
    var s := NatToString(d);
    ShortDate(d);
    if |s| <= 4 then None
    else Some((ParseDigits(s[..4]), ParseDigits(s[4..if |s| < 6 then |s| else 6])))
  }

  /** For an eight-digit date YYYYMMDD the year is YYYY and the month is MM. */
  lemma SplitEightDigitDate(d: nat)
    requires 10000000 <= d < 100000000
    ensures SplitMemberDate(d) == Some((d / 10000, (d / 100) % 100))
  {
    var s := NatToString(d);
    assert Pow10(7) == 10000000 && Pow10(8) == 100000000;
    NatToStringLength(d, 8);
    ParseNatToString(d);
    ParseDigitsSplit(s, 4);
    ParseDigitsSplit(s, 6);
    ParseDigitsSplit(s[..6], 4);
    assert s[..6][4..] == s[4..6];
    assert Pow10(4) == 10000 && Pow10(2) == 100;
  }

  /** The membership date 20170815 gives year 2017 and month 8. */
  lemma SplitMemberDateExample()
    ensures SplitMemberDate(20170815) == Some((2017, 8))
  {
    assert 20170815 / 10000 == 2017 && (20170815 / 100) % 100 == 8;
    SplitEightDigitDate(20170815);
  }

  /** Drop mode keeps a row only when its age is not the missing marker and both
      gender and income are present. */
  predicate Complete(row: ProfileRow) {
    row.age != MissingAge && row.gender.Some? && row.income.Some?
  }

  /** One profile row after the missing-value step and the date split, before the
      date split can fail. */
  function CleanProfileRowOf(row: ProfileRow, profileMap: map<string, int>, dropMissingRows: bool, year: int, month: int): CleanProfileRow {
    if dropMissingRows then
      CleanProfileRow(Generator.Lookup(profileMap, row.id), row.gender, Some(row.age), row.income, year, month)
    else
      CleanProfileRow(
        Generator.Lookup(profileMap, row.id),
        Some(row.gender.GetOr("U")),
        if row.age == MissingAge then None else Some(row.age),
        row.income,
        year,
        month)
  }

  /** `clean_profile_df` without the optional band columns: the drop-mode filter or the
      fill-mode defaults, then the date split; `None` when a remaining row's date is too
      short to split. */
  function CleanProfile(rows: seq<ProfileRow>, profileMap: map<string, int>, dropMissingRows: bool): (r: Option<seq<CleanProfileRow>>)
    ensures r.Some? ==> |r.value| == |Kept(rows, dropMissingRows)|
    decreases |rows|
  {
    if rows == [] then Some([])
    else
      var row := rows[0];
      if dropMissingRows && !Complete(row) then CleanProfile(rows[1..], profileMap, dropMissingRows)
      else
        match SplitMemberDate(row.becameMemberOn)
        case None => None
        case Some((year, month)) =>
          match CleanProfile(rows[1..], profileMap, dropMissingRows)
          case None => None
          case Some(rest) => Some([CleanProfileRowOf(row, profileMap, dropMissingRows, year, month)] + rest)
  }

  /** The rows the cleaning keeps. */
  function Kept(rows: seq<ProfileRow>, dropMissingRows: bool): seq<ProfileRow>
    decreases |rows|
  {
    if rows == [] then []
    else if dropMissingRows && !Complete(rows[0]) then Kept(rows[1..], dropMissingRows)
    else [rows[0]] + Kept(rows[1..], dropMissingRows)
  }

  /** Cleaning fails exactly when a kept row has a membership date below 10000; otherwise
      it yields one row per kept row, with its code, year and month, and in drop mode
      only complete rows are kept, in fill mode every row. */
  lemma {:induction false} CleanProfileSpec(rows: seq<ProfileRow>, profileMap: map<string, int>, dropMissingRows: bool)
    ensures var kept := Kept(rows, dropMissingRows);
      && (CleanProfile(rows, profileMap, dropMissingRows).None? <==> exists k :: k in kept && k.becameMemberOn < 10000)
      && (CleanProfile(rows, profileMap, dropMissingRows).Some? ==>
            var out := CleanProfile(rows, profileMap, dropMissingRows).value;
            && |out| == |kept|
            && forall i :: 0 <= i < |out| ==>
                 && out[i] == CleanProfileRowOf(kept[i], profileMap, dropMissingRows, out[i].regYear, out[i].regMonth)
                 && out[i].profileId == Generator.Lookup(profileMap, kept[i].id)
                 && Some((out[i].regYear, out[i].regMonth)) == SplitMemberDate(kept[i].becameMemberOn))
      && (dropMissingRows ==> forall k :: k in kept <==> k in rows && Complete(k))
      && (!dropMissingRows ==> kept == rows)
  {
    KeptRows(rows, dropMissingRows);
    CleanProfileFails(rows, profileMap, dropMissingRows);
    if CleanProfile(rows, profileMap, dropMissingRows).Some? {
      CleanProfileRows(rows, profileMap, dropMissingRows);
    }
  }

  /** Drop mode keeps the complete rows, fill mode every row. */
  lemma {:induction false} KeptRows(rows: seq<ProfileRow>, dropMissingRows: bool)
    ensures dropMissingRows ==> forall k :: k in Kept(rows, dropMissingRows) <==> k in rows && Complete(k)
    ensures !dropMissingRows ==> Kept(rows, dropMissingRows) == rows
    decreases |rows|
  {
    if rows != [] {
      KeptRows(rows[1..], dropMissingRows);
      assert rows == [rows[0]] + rows[1..];
    }
  }

  /** Cleaning fails exactly when a kept row's membership date is below 10000. */
  lemma {:induction false} CleanProfileFails(rows: seq<ProfileRow>, profileMap: map<string, int>, dropMissingRows: bool)
    ensures CleanProfile(rows, profileMap, dropMissingRows).None?
      <==> exists k :: k in Kept(rows, dropMissingRows) && k.becameMemberOn < 10000
    decreases |rows|
  {
    if rows != [] {
      CleanProfileFails(rows[1..], profileMap, dropMissingRows);
      var kept := Kept(rows, dropMissingRows);
      var rest := Kept(rows[1..], dropMissingRows);
      if !(dropMissingRows && !Complete(rows[0])) {
        assert kept == [rows[0]] + rest;
        if CleanProfile(rows, profileMap, dropMissingRows).None? && SplitMemberDate(rows[0].becameMemberOn).Some? {
          var k :| k in rest && k.becameMemberOn < 10000;
          assert k in kept;
        }
      }
    }
  }

  /** A successful cleaning yields one row per kept row, with its code, year and month. */
  lemma {:induction false} CleanProfileRows(rows: seq<ProfileRow>, profileMap: map<string, int>, dropMissingRows: bool)
    requires CleanProfile(rows, profileMap, dropMissingRows).Some?
    ensures var kept := Kept(rows, dropMissingRows);
      var out := CleanProfile(rows, profileMap, dropMissingRows).value;
      && |out| == |kept|
      && forall i :: 0 <= i < |out| ==>
           && out[i] == CleanProfileRowOf(kept[i], profileMap, dropMissingRows, out[i].regYear, out[i].regMonth)
           && out[i].profileId == Generator.Lookup(profileMap, kept[i].id)
           && Some((out[i].regYear, out[i].regMonth)) == SplitMemberDate(kept[i].becameMemberOn)
    decreases |rows|
  {
    if rows != [] {
      CleanProfileRows(rows[1..], profileMap, dropMissingRows);
      if !(dropMissingRows && !Complete(rows[0])) {
        var kept := Kept(rows, dropMissingRows);
        var rest := Kept(rows[1..], dropMissingRows);
        var out := CleanProfile(rows, profileMap, dropMissingRows).value;
        var out' := CleanProfile(rows[1..], profileMap, dropMissingRows).value;
        var ym := SplitMemberDate(rows[0].becameMemberOn).value;
        assert out == [CleanProfileRowOf(rows[0], profileMap, dropMissingRows, ym.0, ym.1)] + out';
        assert kept == [rows[0]] + rest;
        forall i | 0 <= i < |out|
          ensures out[i] == CleanProfileRowOf(kept[i], profileMap, dropMissingRows, out[i].regYear, out[i].regMonth)
          ensures out[i].profileId == Generator.Lookup(profileMap, kept[i].id)
          ensures Some((out[i].regYear, out[i].regMonth)) == SplitMemberDate(kept[i].becameMemberOn)
        {
          if i > 0 {
            assert out[i] == out'[i - 1] && kept[i] == rest[i - 1];
          }
        }
      }
    }
  }

  /** Fill mode keeps every row, writes 'U' for a missing gender and marks the age 118 as missing. */
  lemma FillModeDefaults(row: ProfileRow, profileMap: map<string, int>, year: int, month: int)
    ensures var c := CleanProfileRowOf(row, profileMap, false, year, month);
      && (row.gender.None? ==> c.gender == Some("U"))
      && (row.gender.Some? ==> c.gender == row.gender)
      && (c.age.None? <==> row.age == MissingAge)
  {
  }
}
