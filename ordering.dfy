/** The ranking comparator over record snapshots: higher popularity first,
    then the more recent timestamp, and (an addition to the original) the
    smaller id, so that distinct records never compare equal. */
module Ordering {
  import opened Popularity

  /** Integer.compare and Long.compare: -1, 0 or 1 as x is below, equal to or above y. */
  function JavaCompare(x: int, y: int): (r: int)
    ensures r == -1 || r == 0 || r == 1
    ensures r < 0 <==> x < y
    ensures r == 0 <==> x == y
  {
    if x < y then -1 else if x == y then 0 else 1
  }

  /** The comparator as the original writes it, with no id tie-break. */
  function CompareAsWritten(c1: Record, c2: Record): (r: int)
    ensures r == 0 <==> c1.popularity == c2.popularity && c1.timestamp == c2.timestamp
  {
    if c1.popularity == c2.popularity then JavaCompare(c2.timestamp, c1.timestamp)
    else JavaCompare(c2.popularity, c1.popularity)
  }

  /** The comparator of the model: the original's, then ascending id. */
  function Compare(c1: Record, c2: Record): (r: int)
    ensures r == 0 <==> c1 == c2
    ensures CompareAsWritten(c1, c2) != 0 ==> r == CompareAsWritten(c1, c2)
  {
    var w := CompareAsWritten(c1, c2);
    if w != 0 then w else JavaCompare(c1.id, c2.id)
  }

  /** `a` is ranked strictly before `b`. */
  predicate Precedes(a: Record, b: Record)
  {
    Compare(a, b) < 0
  }

  /** An independent statement of the ranking order, field by field. */
  lemma PrecedesMeaning(a: Record, b: Record)
    ensures Precedes(a, b) <==>
      || a.popularity > b.popularity
      || (a.popularity == b.popularity && a.timestamp > b.timestamp)
      || (a.popularity == b.popularity && a.timestamp == b.timestamp && a.id < b.id)
  {
  }

  /** The sign contract of java.util.Comparator, for both comparators. */
  lemma CompareAntisymmetric(a: Record, b: Record)
    ensures Compare(a, b) == -Compare(b, a)
    ensures CompareAsWritten(a, b) == -CompareAsWritten(b, a)
  {
  }

  /** The ranking order is transitive. */
  lemma PrecedesTransitive(a: Record, b: Record, c: Record)
    requires Precedes(a, b) && Precedes(b, c)
    ensures Precedes(a, c)
  {
  }

  /** The ranking order is irreflexive and total: exactly one of three
      relations holds between any two records. */
  lemma PrecedesTrichotomy(a: Record, b: Record)
    ensures !Precedes(a, a)
    ensures a != b ==> (Precedes(a, b) <==> !Precedes(b, a))
  {
  }

  /** Precedes is a strict total order on records. */
  lemma PrecedesStrictTotalOrder()
    ensures forall a :: !Precedes(a, a)
    ensures forall a, b :: Precedes(a, b) ==> !Precedes(b, a)
    ensures forall a, b, c :: Precedes(a, b) && Precedes(b, c) ==> Precedes(a, c)
    ensures forall a, b :: a != b ==> Precedes(a, b) || Precedes(b, a)
  {
    forall a, b, c | Precedes(a, b) && Precedes(b, c) ensures Precedes(a, c) {
      PrecedesTransitive(a, b, c);
    }
  }

  /** The original comparator identifies distinct records that share a score
      and a timestamp, so a TreeSet keyed by it keeps only one of them. */
  lemma TiesCollapseAsWritten()
    ensures CompareAsWritten(Record(1, 5, 10), Record(2, 5, 10)) == 0
    ensures Compare(Record(1, 5, 10), Record(2, 5, 10)) < 0
  {
  }
}
