/** Client code: concrete scenarios of the calculator, checked against its
    contracts alone. */
module Scenarios {
  import opened Popularity
  import opened Calculator

  /** The registry values of the scenario below, batch by batch. */
  lemma ScenarioBatches()
    ensures ApplyAll(map[1 := Record(1, 0, 0), 2 := Record(2, 0, 0)],
              [ContentAction(1, Increase, 5), ContentAction(2, Increase, 3)], [1, 2])
            == map[1 := Record(1, 5, 1), 2 := Record(2, 3, 2)]
    ensures Touched({1, 2}, [ContentAction(1, Increase, 5), ContentAction(2, Increase, 3)]) == {1, 2}
    ensures ApplyAll(map[1 := Record(1, 5, 1), 2 := Record(2, 3, 2)], [ContentAction(1, Decrease, 10)], [3])
            == map[1 := Record(1, 0, 3), 2 := Record(2, 3, 2)]
    ensures Touched({1, 2}, [ContentAction(1, Decrease, 10)]) == {1}
  {
    var inc1, inc2 := ContentAction(1, Increase, 5), ContentAction(2, Increase, 3);
    assert [inc1, inc2][..1] == [inc1] && [1, 2][..1] == [1];
    assert ApplyAll(map[1 := Record(1, 0, 0), 2 := Record(2, 0, 0)], [inc1], [1])
        == map[1 := Record(1, 5, 1), 2 := Record(2, 0, 0)];
  }

  /** A calculator with contents 1 and 2 registered at score zero. */
  method RegisterTwo() returns (ranker: ContentPopulatityCalculator, a: Content, b: Content)
    ensures ranker.Valid()
    ensures fresh(ranker) && fresh(a) && fresh(b)
    ensures ranker.contentMap == map[1 := a, 2 := b]
    ensures ranker.Records() == map[1 := Record(1, 0, 0), 2 := Record(2, 0, 0)]
    ensures ranker.RankedIds() == {}
  {
    ranker := new ContentPopulatityCalculator();
    a := ranker.Register(1, 0);
    b := ranker.Register(2, 0);
    assert ranker.Records() == map[1 := Record(1, 0, 0), 2 := Record(2, 0, 0)];
  }

  /** Registers two contents at score zero and increases them by 5 and 3. */
  method IncreaseTwo() returns (ranker: ContentPopulatityCalculator, a: Content, b: Content)
    ensures ranker.Valid()
    ensures ranker.contentMap == map[1 := a, 2 := b]
    ensures ranker.Records() == map[1 := Record(1, 5, 1), 2 := Record(2, 3, 2)]
    ensures ranker.RankedIds() == {1, 2}
    ensures fresh(ranker) && fresh(a) && fresh(b)
  {
    ScenarioBatches();
    ranker, a, b := RegisterTwo();
    ranker.Consume([ContentAction(1, Increase, 5), ContentAction(2, Increase, 3)], [1, 2]);
  }

  /** After those increases the first content ranks above the second. */
  method IncreaseBoth() returns (ranker: ContentPopulatityCalculator, a: Content, b: Content)
    ensures ranker.Valid()
    ensures ranker.contentMap == map[1 := a, 2 := b]
    ensures ranker.Records() == map[1 := Record(1, 5, 1), 2 := Record(2, 3, 2)]
    ensures ranker.RankedIds() == {1, 2}
    ensures fresh(ranker) && fresh(a) && fresh(b)
    ensures ranker.TopN(2) == Success([a, b])
  {
    ranker, a, b := IncreaseTwo();
    assert ranker.Records()[1] == Record(1, 5, 1) && ranker.Records()[2] == Record(2, 3, 2);
    assert ranker.RecordsOf([1, 2]) == [Record(1, 5, 1), Record(2, 3, 2)];
    assert Ranking.Sorted([Record(1, 5, 1), Record(2, 3, 2)]);
    assert forall id :: id in [1, 2] <==> id in ranker.RankedIds();
    ranker.RankingDetermined([1, 2]);
    assert ranker.sortedContents == [a, b];
  }

  /** Decreasing the first content by 10 pins its score at zero. */
  method DecreaseFirst() returns (ranker: ContentPopulatityCalculator, a: Content, b: Content)
    ensures ranker.Valid()
    ensures ranker.contentMap == map[1 := a, 2 := b]
    ensures ranker.Records() == map[1 := Record(1, 0, 3), 2 := Record(2, 3, 2)]
    ensures ranker.RankedIds() == {1, 2}
    ensures fresh(ranker) && fresh(a) && fresh(b)
  {
    ScenarioBatches();
    ranker, a, b := IncreaseBoth();
    ranker.Consume([ContentAction(1, Decrease, 10)], [3]);
  }

  /** After the decrease, the order flips: the second content ranks first. */
  method DecreaseReorders() returns (ranker: ContentPopulatityCalculator, a: Content, b: Content)
    ensures fresh(ranker) && fresh(a) && fresh(b)
    ensures ranker.TopN(2) == Success([b, a])
    ensures ranker.Top1() == Some(b)
  {
    ranker, a, b := DecreaseFirst();
    assert ranker.Records()[1] == Record(1, 0, 3) && ranker.Records()[2] == Record(2, 3, 2);
    assert ranker.RecordsOf([2, 1]) == [Record(2, 3, 2), Record(1, 0, 3)];
    assert Ranking.Sorted([Record(2, 3, 2), Record(1, 0, 3)]);
    assert forall id :: id in [2, 1] <==> id in ranker.RankedIds();
    ranker.RankingDetermined([2, 1]);
    assert ranker.sortedContents == [b, a];
  }

  /** The registry values of the tie scenario below. */
  lemma TieBatch()
    ensures ApplyAll(map[1 := Record(1, 0, 0), 2 := Record(2, 0, 0)],
              [ContentAction(1, Increase, 5), ContentAction(2, Increase, 5)], [1, 1])
            == map[1 := Record(1, 5, 1), 2 := Record(2, 5, 1)]
    ensures Touched({1, 2}, [ContentAction(1, Increase, 5), ContentAction(2, Increase, 5)]) == {1, 2}
  {
    var inc1, inc2 := ContentAction(1, Increase, 5), ContentAction(2, Increase, 5);
    assert [inc1, inc2][..1] == [inc1] && [1, 1][..1] == [1];
    assert ApplyAll(map[1 := Record(1, 0, 0), 2 := Record(2, 0, 0)], [inc1], [1])
        == map[1 := Record(1, 5, 1), 2 := Record(2, 0, 0)];
  }

  /** Registers two contents and raises both to score 5 within the same millisecond. */
  method TieTwo() returns (ranker: ContentPopulatityCalculator, a: Content, b: Content)
    ensures ranker.Valid()
    ensures ranker.contentMap == map[1 := a, 2 := b]
    ensures ranker.Records() == map[1 := Record(1, 5, 1), 2 := Record(2, 5, 1)]
    ensures ranker.RankedIds() == {1, 2}
    ensures fresh(ranker) && fresh(a) && fresh(b)
  {
    TieBatch();
    ranker, a, b := RegisterTwo();
    ranker.Consume([ContentAction(1, Increase, 5), ContentAction(2, Increase, 5)], [1, 1]);
  }

  /** Those two contents are both ranked, the smaller id first. */
  method TiesKeepBoth() returns (ranker: ContentPopulatityCalculator, a: Content, b: Content)
    ensures fresh(ranker) && fresh(a) && fresh(b)
    ensures ranker.Records() == map[1 := Record(1, 5, 1), 2 := Record(2, 5, 1)]
    ensures ranker.TopN(2) == Success([a, b])
  {
    ranker, a, b := TieTwo();
    assert ranker.Records()[1] == Record(1, 5, 1) && ranker.Records()[2] == Record(2, 5, 1);
    assert ranker.RecordsOf([1, 2]) == [Record(1, 5, 1), Record(2, 5, 1)];
    assert Ranking.Sorted([Record(1, 5, 1), Record(2, 5, 1)]);
    assert forall id :: id in [1, 2] <==> id in ranker.RankedIds();
    ranker.RankingDetermined([1, 2]);
    assert ranker.sortedContents == [a, b];
  }
}
