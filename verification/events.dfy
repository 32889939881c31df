/**
 The cleaned event record shared by the transcript cleaner and the response
 combiner: one row of the cleaned transcript table.
 */
module Events {

  /** The `event` column. The source compares raw labels; any label other than
      the four known ones is kept verbatim as `Other`. */
  datatype EventKind = Received | Viewed | Completed | Transaction | Other(name: string)

  /** The label written in the transcript for each kind. */
  function KindLabel(k: EventKind): string {
    match k
    case Received => "offer received"
    case Viewed => "offer viewed"
    case Completed => "offer completed"
    case Transaction => "transaction"
    case Other(name) => name
  }

  /** The four labels the code gives a meaning to. */
  const KnownLabels: set<string> := {"offer received", "offer viewed", "offer completed", "transaction"}

  /** A kind `KindOf` can produce: an `Other` never carries one of the known labels. */
  predicate Canonical(k: EventKind) {
    k.Other? ==> k.name !in KnownLabels
  }

  /** Reads a transcript label; it loses nothing, so comparing kinds is comparing labels. */
  function KindOf(text: string): (k: EventKind)
    ensures KindLabel(k) == text
    ensures Canonical(k)
    ensures k.Other? <==> text !in KnownLabels
  {
    if text == "offer received" then Received
    else if text == "offer viewed" then Viewed
    else if text == "offer completed" then Completed
    else if text == "transaction" then Transaction
    else Other(text)
  }

  /** Reading labels is injective: equal kinds come from equal labels. */
  lemma KindOfInjective(a: string, b: string)
    requires KindOf(a) == KindOf(b)
    ensures a == b
  {
    assert KindLabel(KindOf(a)) == a;
  }

  /** On the kinds `KindOf` produces, equal labels mean equal kinds: comparing kinds
      is comparing the label strings. */
  lemma KindLabelInjective(a: EventKind, b: EventKind)
    requires Canonical(a) && Canonical(b)
    requires KindLabel(a) == KindLabel(b)
    ensures a == b
  {
    assert KindOf(KindLabel(a)) == a;
    assert KindOf(KindLabel(b)) == b;
  }

  /** One row of the cleaned transcript. Amounts and rewards are the source's
      floats, read as exact reals; `offerId` 0 marks an event without an offer. */
  datatype Event = Event(
    eventId: int,
    kind: EventKind,
    amount: real,
    reward: real,
    time: int,
    profileId: int,
    offerId: int)
}
