/** The calculator as the original writes it, on values, kept beside the
    model to exhibit where it departs from the intended behaviour:
    - scores are Java ints, so an increase can wrap around to a negative score;
    - the comparator has no id tie-break, so records that share a score and a
      timestamp collapse into one TreeSet entry;
    - consume mutates a ranked record and calls add without remove, so the
      TreeSet keeps the record at its stale position.
    The ranking is a sequence of ids whose records are looked up in the
    registry: the TreeSet holds references, so a ranked entry always shows the
    record's current values, wherever it sits. */
module AsWritten {
  import opened Popularity
  import opened Ordering

  const IntMin: int := -0x8000_0000
  const IntMax: int := 0x7fff_ffff

  /** Java int arithmetic: the value modulo 2^32, in [IntMin, IntMax]. */
  function Wrap32(x: int): (r: int)
    ensures IntMin <= r <= IntMax
    ensures IntMin <= x <= IntMax ==> r == x
    ensures (x - r) % 0x1_0000_0000 == 0
  {
    (x - IntMin) % 0x1_0000_0000 + IntMin
  }

  /** increasePopularity on a Java int. */
  function IncreasedAsWritten(popularity: int, count: int): (p: int)
    ensures IntMin <= p <= IntMax
    ensures IntMin <= popularity + count <= IntMax ==> p == IncreasedBy(popularity, count)
  {
    Wrap32(popularity + count)
  }

  /** decreasePopularity on a Java int. */
  function DecreasedAsWritten(popularity: int, count: int): (p: int)
    ensures 0 <= p <= IntMax
    ensures IntMin <= popularity - count <= IntMax ==> p == DecreasedBy(popularity, count)
  {
    var newCount := Wrap32(popularity - count);
    if newCount < 0 then 0 else newCount
  }

  /** The largest score plus one wraps to the most negative int, while the
      model's exact sum stays positive. */
  lemma IncreaseOverflowsAsWritten()
    ensures IncreasedAsWritten(IntMax, 1) == IntMin
    ensures IncreasedAsWritten(IntMax, 1) < 0 < IncreasedBy(IntMax, 1)
  {
  }

  /** Every ranked id is registered. */
  ghost predicate RankedRegistered(recs: map<int, Record>, ranking: seq<int>)
  {
    forall j :: 0 <= j < |ranking| ==> ranking[j] in recs
  }

  /** TreeSet.add with the comparator as written, walking the ranking from
      the front: an entry comparing equal means "already present" and the set
      is left as it is; otherwise the id goes before the first entry that
      compares greater. */
  function AddAsWritten(ranking: seq<int>, recs: map<int, Record>, id: int): (r: seq<int>)
    requires id in recs
    requires RankedRegistered(recs, ranking)
    ensures RankedRegistered(recs, r)
    ensures r == ranking ==> exists j :: 0 <= j < |ranking| && CompareAsWritten(recs[id], recs[ranking[j]]) == 0
    ensures r != ranking ==> multiset(r) == multiset(ranking) + multiset{id}
  {
    if ranking == [] then [id]
    else
      var c := CompareAsWritten(recs[id], recs[ranking[0]]);
      if c == 0 then ranking
      else if c < 0 then [id] + ranking
      else
        assert ranking == [ranking[0]] + ranking[1..];
        [ranking[0]] + AddAsWritten(ranking[1..], recs, id)
  }

  /** One action as the loop body of consume writes it: look up, update the
      shared record with int arithmetic, then add without remove. */
  function StepAsWritten(recs: map<int, Record>, ranking: seq<int>, a: ContentAction, now: int): (r: (map<int, Record>, seq<int>))
    requires RankedRegistered(recs, ranking)
    ensures r.0.Keys == recs.Keys
    ensures RankedRegistered(r.0, r.1)
  {
    if a.contentId !in recs then (recs, ranking)
    else
      var before := recs[a.contentId];
      var p := match a.kind
        case Increase => IncreasedAsWritten(before.popularity, a.count)
        case Decrease => DecreasedAsWritten(before.popularity, a.count);
      var recs' := recs[a.contentId := Record(before.id, p, now)];
      (recs', AddAsWritten(ranking, recs', a.contentId))
  }

  /** consume as written: the actions in sequence order. */
  function ConsumeAsWritten(recs: map<int, Record>, ranking: seq<int>, actions: seq<ContentAction>, clock: seq<int>): (r: (map<int, Record>, seq<int>))
    requires RankedRegistered(recs, ranking)
    requires |clock| == |actions|
    ensures r.0.Keys == recs.Keys
    ensures RankedRegistered(r.0, r.1)
    decreases |actions|
  {
    if actions == [] then (recs, ranking)
    else
      var s := StepAsWritten(recs, ranking, actions[0], clock[0]);
      ConsumeAsWritten(s.0, s.1, actions[1..], clock[1..])
  }

  /** Two records with score zero, neither ranked yet. */
  function TwoFreshRecords(): map<int, Record>
  {
    map[1 := Record(1, 0, 0), 2 := Record(2, 0, 0)]
  }

  /** Increase 1 by 5 and 2 by 3, then decrease 1 by 10: as written, record 1
      keeps the first place with score 0 although record 2 has score 3. */
  lemma StaleEntryAsWritten()
    ensures var s1 := ConsumeAsWritten(TwoFreshRecords(), [],
              [ContentAction(1, Increase, 5), ContentAction(2, Increase, 3)], [1, 2]);
            var s2 := ConsumeAsWritten(s1.0, s1.1, [ContentAction(1, Decrease, 10)], [3]);
            && s1.1 == [1, 2]
            && s2.1 == [1, 2]
            && s2.0[1] == Record(1, 0, 3) && s2.0[2] == Record(2, 3, 2)
            && CompareAsWritten(s2.0[1], s2.0[2]) > 0
  {
    var inc1, inc2, dec1 := ContentAction(1, Increase, 5), ContentAction(2, Increase, 3), ContentAction(1, Decrease, 10);
    var a := StepAsWritten(TwoFreshRecords(), [], inc1, 1);
    assert a.1 == [1];
    var b := StepAsWritten(a.0, a.1, inc2, 2);
    assert b.0[1] == Record(1, 5, 1) && b.0[2] == Record(2, 3, 2);
    assert AddAsWritten([1], b.0, 2) == [1] + AddAsWritten([], b.0, 2);
    assert b.1 == [1, 2];
    assert [inc1, inc2][1..] == [inc2] && [1, 2][1..] == [2];
    assert ConsumeAsWritten(b.0, b.1, [], []) == b;
    assert ConsumeAsWritten(a.0, a.1, [inc2], [2]) == b;
    assert ConsumeAsWritten(TwoFreshRecords(), [], [inc1, inc2], [1, 2]) == b;
    var c := StepAsWritten(b.0, b.1, dec1, 3);
    assert c.0[1] == Record(1, 0, 3);
    assert c.1 == [1, 2];
    assert ConsumeAsWritten(b.0, b.1, [dec1], [3]) == c;
  }

  /** Increase 1 and 2 by 5 within the same millisecond: as written, the
      second record compares equal to the first and never enters the ranking. */
  lemma TiesCollapseInRankingAsWritten()
    ensures var s := ConsumeAsWritten(TwoFreshRecords(), [],
              [ContentAction(1, Increase, 5), ContentAction(2, Increase, 5)], [1, 1]);
            && s.1 == [1]
            && s.0[2] == Record(2, 5, 1)
  {
  }
}
