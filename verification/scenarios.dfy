/** Concrete runs of `check_validity` and `create_response` on small event logs. */
module Scenarios {
  import opened Events
  import opened AmountStorer
  import opened Validity

  function Ev(kind: EventKind, reward: real, time: int, offerId: int): Event {
    Event(0, kind, 0.0, reward, time, 1, offerId)
  }

  /** Customer 1 spent 19.89 at time 20. */
  function SpendAt20(): (r: Store)
    ensures GetAmount(r, 1, 20) == 19.89
  {
    NeverSetIsZero(1, 20);
    SetAmount(EmptyStore, 1, 20, 19.89)
  }

  /** Received at 10, viewed at 15, completed at 20 with reward 5 and a 19.89 purchase at
      20: one valid response worth 19.89 and reward 5. */
  lemma OneEpisode()
    ensures CheckValidity(1, [Ev(Received, 0.0, 10, 5), Ev(Viewed, 0.0, 15, 5), Ev(Completed, 5.0, 20, 5)], SpendAt20())
      == Totals(1, 19.89, 5.0)
  {
    SingleEpisodeGroup(1, SpendAt20(), Ev(Received, 0.0, 10, 5), Ev(Viewed, 0.0, 15, 5), Ev(Completed, 5.0, 20, 5));
  }

  /** Received at 10 and completed at 20 without a view: no valid response, all zeros. */
  lemma NoView()
    ensures CheckValidity(1, [Ev(Received, 0.0, 10, 5), Ev(Completed, 2.0, 20, 5)], SpendAt20())
      == Totals(0, 0.0, 0.0)
  {
    var g := [Ev(Received, 0.0, 10, 5), Ev(Completed, 2.0, 20, 5)];
    assert SortByTime(g) == g;
  }

  /** Customer 1 spent 19.89 at time 20 and 7.5 at time 40. */
  function SpendAt20And40(): (r: Store)
    ensures GetAmount(r, 1, 20) == 19.89 && GetAmount(r, 1, 40) == 7.5
  {
    NeverSetIsZero(1, 20);
    NeverSetIsZero(1, 40);
    var s := SetAmount(EmptyStore, 1, 20, 19.89);
    SetAmountFrame(EmptyStore, 1, 20, 19.89, 1, 40);
    SetAmountFrame(s, 1, 40, 7.5, 1, 20);
    SetAmount(s, 1, 40, 7.5)
  }

  /** Two complete episodes: two valid responses, rewards 5 + 3, and the purchases at
      both completion times. */
  lemma TwoEpisodes()
    ensures CheckValidity(1, [Ev(Received, 0.0, 10, 5), Ev(Viewed, 0.0, 15, 5), Ev(Completed, 5.0, 20, 5),
                              Ev(Received, 0.0, 30, 5), Ev(Viewed, 0.0, 35, 5), Ev(Completed, 3.0, 40, 5)], SpendAt20And40())
      == Totals(2, 19.89 + 7.5, 8.0)
  {
    var g1 := [Ev(Received, 0.0, 10, 5), Ev(Viewed, 0.0, 15, 5), Ev(Completed, 5.0, 20, 5)];
    var g2 := [Ev(Received, 0.0, 30, 5), Ev(Viewed, 0.0, 35, 5), Ev(Completed, 3.0, 40, 5)];
    var store := SpendAt20And40();
    assert g1 + g2 == [Ev(Received, 0.0, 10, 5), Ev(Viewed, 0.0, 15, 5), Ev(Completed, 5.0, 20, 5),
                       Ev(Received, 0.0, 30, 5), Ev(Viewed, 0.0, 35, 5), Ev(Completed, 3.0, 40, 5)];
    SortSorted(g1 + g2);
    ReplayAppend(1, store, Start, g1, g2);
    FullEpisode(1, store, Totals(0, 0.0, 0.0), g1[0], g1[1], g1[2]);
    FullEpisode(1, store, Totals(1, 19.89, 5.0), g2[0], g2[1], g2[2]);
  }

  /** Two offers completed at the same time both claim the purchase made then: the amounts
      attributed to the customer add up to twice what the customer spent. */
  lemma SamePurchaseTwice()
    ensures CheckValidity(1, [Ev(Received, 0.0, 10, 5), Ev(Viewed, 0.0, 15, 5), Ev(Completed, 5.0, 20, 5)], SpendAt20()).amount
          + CheckValidity(1, [Ev(Received, 0.0, 11, 6), Ev(Viewed, 0.0, 16, 6), Ev(Completed, 2.0, 20, 6)], SpendAt20()).amount
          == 2.0 * GetAmount(SpendAt20(), 1, 20)
  {
    OneEpisode();
    SingleEpisodeGroup(1, SpendAt20(), Ev(Received, 0.0, 11, 6), Ev(Viewed, 0.0, 16, 6), Ev(Completed, 2.0, 20, 6));
  }
}
