# Content popularity calculator, modelled in Dafny

The system ranks content items by popularity. Each `Content` has an id, a
popularity score and the timestamp of its last change. A stream of
`ContentAction`s (content id, `INCREASE` or `DECREASE`, count) adjusts the
scores:
- an increase adds the count;
- a decrease subtracts it, floored at zero;
- both stamp the content with the current time.

The calculator keeps two structures:
- `contentMap`, a registry from id to the one shared `Content` object;
- `sortedContents`, a `TreeSet` of the same objects, ordered by
  descending popularity, then descending timestamp.

`getMostPopularContent(n)` returns the first `n` ranked contents, and
`getMostPopularContent()` returns the first one, if there is one.

The model has two layers.

- **Values.** Modules `Popularity`, `Ordering` and `Ranking` hold:
  - the score arithmetic;
  - the effect of one action and of a batch of actions on the registry,
    seen as a map from id to `Record` (id, popularity, timestamp);
  - the comparator and its order properties;
  - the sorted ranking with its insert and remove operations.
- **Heap.** Module `Calculator` has:
  - a `Content` class whose methods update its fields in place;
  - a `ContentPopulatityCalculator` class (the original's spelling) with
    the fields `contentMap: map<int, Content>` and
    `sortedContents: seq<Content>`.
  
  `Valid()` says three things:
  - every registered object sits under its own id;
  - every ranked object is the registered object of its id;
  - the snapshots of the ranking are sorted.
  
  Each method is proved against the value layer. `Consume` leaves
  `Records()` equal to `ApplyAll` of the old records.

Module `AsWritten` restates the original's `consume` on values, as written
except that `add` is a walk of the ranking from the front rather than a
descent from the tree's root (see Left out). It keeps 32-bit `int` scores, a
comparator with no tie-break, and `add` without `remove`. Its lemmas show
where that code departs from the intended behaviour (see Findings). Module
`Scenarios` holds verified traces of the heap model, among them the two
traces on which the original goes wrong.

The model follows four interpretations.
- After an action, the content is taken out of the ranking and put back at
  the position its new score and timestamp give it. The original only calls
  `add` on an object that was mutated in place (`ContentPopulatityCalculator.java:47`).
- The comparator breaks a tie in score and timestamp by ascending id, so
  distinct contents never compare equal. This is a deviation from the
  original's comparator (`ContentPopulatityCalculator.java:17-22`), which
  `Ordering.CompareAsWritten` keeps.
- The original has no way to add content to `contentMap`. `Register(id,
  popularity)` is added; it requires an id not yet registered and a
  non-negative score. As in the original, a content joins the ranking with
  the first action that targets it.
- Scores are unbounded integers, so an increase never wraps around. The
  original's score is a 32-bit `int` whose sum wraps
  (`ContentPopulatityCalculator.java:55`, `:70`); `AsWritten.IncreasedAsWritten`
  keeps that arithmetic.

Where the intended behaviour and the code disagree, the model follows the
code except for the four interpretations above. Counts in
particular are not validated: a negative count is applied as written, with
no precondition against it. Only the claim that scores stay non-negative is
conditional on non-negative counts.

## Model

| member | source | states |
|---|---|---|
| Popularity.DefaultAction | ContentPopulatityCalculator.java:92-96 | the two-argument action constructor keeps the id and the type, with count 1 |
| Popularity.IncreasedBy | ContentPopulatityCalculator.java:69-70 | the new score exceeds the old by exactly the count, and it does not drop when both are non-negative |
| Popularity.DecreasedBy | ContentPopulatityCalculator.java:74-76 | the new score is never negative: it is the difference when the count does not exceed the score, and 0 otherwise |
| Popularity.Applied | ContentPopulatityCalculator.java:42-45 | an action keeps the record's id and stamps it with the clock reading; a decrease never yields a negative score, and neither does any action with a non-negative score and count |
| Popularity.ApplyAction | ContentPopulatityCalculator.java:39-48 | an action on an unknown id changes nothing; on a known id it updates that record alone; the set of ids is unchanged |
| Popularity.ApplyAll | ContentPopulatityCalculator.java:38-50 | the registry after a batch applied in sequence order, each action stamped with its own clock reading; the batch never adds or removes an entry |
| Popularity.Touched | ContentPopulatityCalculator.java:40-41 | the ids an action batch brings into the ranking are all registered ids |
| Popularity.TouchedMeaning | ContentPopulatityCalculator.java:40-47 | an id is brought into the ranking by a batch exactly when it is registered and some action of the batch names it |
| Popularity.BatchExtended | ContentPopulatityCalculator.java:39 | extending a batch by its next action applies that action to the batch's result, registry and touched ids alike |
| Popularity.ApplyAllStamps | ContentPopulatityCalculator.java:69-77 | a batch never changes a record's id, and every record it changes carries one of the batch's clock readings |
| Popularity.ApplyAllNonNegative | ContentPopulatityCalculator.java:69-77 | with non-negative counts, no score ever becomes negative |
| Popularity.DecreasesKeepFloor | ContentPopulatityCalculator.java:74-77 | a batch of decreases of any counts keeps every score non-negative |
| Popularity.ApplyAllUnknownIds | ContentPopulatityCalculator.java:40-41 | a batch whose ids are all unregistered leaves the registry as it was |
| Popularity.ApplyAllUntouched | ContentPopulatityCalculator.java:39-49 | a record the batch never names keeps its value |
| Ordering.JavaCompare | ContentPopulatityCalculator.java:19-21 | Long.compare / Integer.compare return -1, 0 or 1, negative exactly when x < y and zero exactly when x == y |
| Ordering.CompareAsWritten | ContentPopulatityCalculator.java:17-22 | the original comparator is zero exactly when score and timestamp are both equal |
| Ordering.Compare | ContentPopulatityCalculator.java:17-22 | the model's comparator is zero exactly on equal records and agrees with the original wherever the original is nonzero |
| Ordering.PrecedesMeaning | ContentPopulatityCalculator.java:17-22 | ranked before means: higher score, or the same score and a later timestamp, or both the same and a smaller id |
| Ordering.CompareAntisymmetric | ContentPopulatityCalculator.java:17-22 | both comparators satisfy sgn(compare(a, b)) == -sgn(compare(b, a)) |
| Ordering.PrecedesTransitive | ContentPopulatityCalculator.java:17-22 | the ranking order is transitive |
| Ordering.PrecedesTrichotomy | ContentPopulatityCalculator.java:17-22 | the ranking order is irreflexive, and between distinct records exactly one direction holds |
| Ordering.PrecedesStrictTotalOrder | ContentPopulatityCalculator.java:17-22 | the ranking order is a strict total order on records |
| Ordering.TiesCollapseAsWritten | ContentPopulatityCalculator.java:17-22 | two distinct records with equal score and timestamp compare equal under the original comparator but not under the model's |
| Ranking.Position | ContentPopulatityCalculator.java:47 | the insert position of a record in a ranking: every entry before it ranks ahead of the record, and the entry at it does not |
| Ranking.Insert | ContentPopulatityCalculator.java:47 | adding a record gives a ranking one entry longer that holds exactly the old entries and the record, with the record at its insert position |
| Ranking.SortedDistinct | ContentPopulatityCalculator.java:13 | a sorted ranking holds no record twice, as a set |
| Ranking.PositionSplits | ContentPopulatityCalculator.java:47 | in a sorted ranking, every entry from the insert position on ranks after the new record |
| Ranking.InsertSorted | ContentPopulatityCalculator.java:47 | adding an unranked record keeps the ranking sorted and adds exactly that record, as a multiset |
| Ranking.SortedRemove | ContentPopulatityCalculator.java:47 | removing an entry keeps the ranking sorted |
| Ranking.SortedUnique | ContentPopulatityCalculator.java:13-22 | two sorted rankings with the same members are equal: the set's iteration order is determined by its contents |
| Ranking.SortedHeadFirst | ContentPopulatityCalculator.java:30-35 | the first entry ranks ahead of all others and has the highest score |
| Ranking.SortedPrefix | ContentPopulatityCalculator.java:26-28 | every prefix of a sorted ranking is sorted |
| Calculator.Content.constructor | ContentPopulatityCalculator.java:52-56 | a new content has the given id and score and timestamp 0, the default of a long field |
| Calculator.Content.IncreasePopularity | ContentPopulatityCalculator.java:69-72 | the score becomes old score plus count and the timestamp becomes the clock reading |
| Calculator.Content.DecreasePopularity | ContentPopulatityCalculator.java:74-78 | the score becomes the old score minus the count, floored at zero, and the timestamp becomes the clock reading |
| Calculator.ContentPopulatityCalculator.constructor | ContentPopulatityCalculator.java:16-24 | a new calculator has an empty registry and an empty ranking, and is valid |
| Calculator.ContentPopulatityCalculator.Register | ContentPopulatityCalculator.java:13-14 | registering a fresh id adds exactly one record (id, score, 0) to the registry, leaves the ranking alone, keeps validity and keeps scores non-negative |
| Calculator.ContentPopulatityCalculator.Unrank | ContentPopulatityCalculator.java:47 | the content leaves the ranking, every other ranked content stays, and the ranking stays sorted |
| Calculator.ContentPopulatityCalculator.Rank | ContentPopulatityCalculator.java:47 | the content joins the ranking at its sorted position, and nothing else enters or leaves |
| Calculator.ContentPopulatityCalculator.Apply | ContentPopulatityCalculator.java:39-48 | one action updates the registry as `ApplyAction` does, adds the targeted id to the ranking if it is registered, changes nothing for an unknown id, and keeps the ranking sorted |
| Calculator.ContentPopulatityCalculator.Consume | ContentPopulatityCalculator.java:38-50 | a batch leaves the registry keys unchanged, leaves the records equal to `ApplyAll` of the old records, ranks exactly the old ranked ids plus the registered ids it names, keeps the ranking sorted, and keeps scores non-negative when its counts are |
| Calculator.ContentPopulatityCalculator.TopN | ContentPopulatityCalculator.java:26-28 | a negative n is an error; otherwise the answer is the ranking's prefix of length min(n, ranking size) |
| Calculator.ContentPopulatityCalculator.Top1 | ContentPopulatityCalculator.java:30-36 | nothing when the ranking is empty, and its first content otherwise |
| Calculator.ContentPopulatityCalculator.RankingDistinct | ContentPopulatityCalculator.java:13-14 | the ranking holds no content and no id twice, and every ranked id is registered |
| Calculator.ContentPopulatityCalculator.RankingDetermined | ContentPopulatityCalculator.java:13-22 | the ranking is exactly the ranked contents listed in sorted order of their current records |
| Calculator.ContentPopulatityCalculator.TopNRanked | ContentPopulatityCalculator.java:26-28 | a top-n answer is in ranking order, holds no content twice, and has at most n entries and at most as many as are registered |
| Calculator.ContentPopulatityCalculator.Top1IsMostPopular | ContentPopulatityCalculator.java:30-36 | the content returned ranks ahead of every other ranked content and has the highest score |
| AsWritten.Wrap32 | ContentPopulatityCalculator.java:55 | Java int arithmetic: the result lies in the int range, is the value itself inside that range, and is congruent to it modulo 2^32 |
| AsWritten.IncreasedAsWritten | ContentPopulatityCalculator.java:69-70 | the original increase stays in the int range and agrees with the exact sum whenever that sum fits |
| AsWritten.DecreasedAsWritten | ContentPopulatityCalculator.java:74-76 | the original decrease is non-negative and agrees with the model whenever the difference fits an int |
| AsWritten.IncreaseOverflowsAsWritten | ContentPopulatityCalculator.java:69-70 | increasing the largest int score by one gives the most negative int |
| AsWritten.AddAsWritten | ContentPopulatityCalculator.java:47 | TreeSet.add under the original comparator: the ranking stays unchanged only when some entry compares equal to the added record, and otherwise it gains exactly that id; every ranked id stays registered |
| AsWritten.StepAsWritten | ContentPopulatityCalculator.java:40-47 | one action as written keeps the registry keys and keeps every ranked id registered |
| AsWritten.ConsumeAsWritten | ContentPopulatityCalculator.java:38-50 | consume as written keeps the registry keys and keeps every ranked id registered |
| AsWritten.StaleEntryAsWritten | ContentPopulatityCalculator.java:43-47 | as written, a content whose score drops keeps its old place ahead of a content with a higher score |
| AsWritten.TiesCollapseInRankingAsWritten | ContentPopulatityCalculator.java:17-22 | as written, a second content with the same score and timestamp never enters the ranking |
| Scenarios.ScenarioBatches | ContentPopulatityCalculator.java:38-50 | the records and touched ids after increasing 1 by 5 and 2 by 3, then decreasing 1 by 10 |
| Scenarios.TieBatch | ContentPopulatityCalculator.java:38-50 | two increases by 5 at the same clock reading give both records score 5 |
| Scenarios.RegisterTwo | ContentPopulatityCalculator.java:13-24 | two registrations give a valid calculator with two zero-score records and an empty ranking |
| Scenarios.IncreaseTwo | ContentPopulatityCalculator.java:38-50 | increasing content 1 by 5 and content 2 by 3 gives scores 5 and 3 with both contents ranked |
| Scenarios.IncreaseBoth | ContentPopulatityCalculator.java:26-50 | after the increases, the top two are content 1 then content 2 |
| Scenarios.DecreaseFirst | ContentPopulatityCalculator.java:38-50 | decreasing content 1 by 10 pins its score at 0 and keeps both contents ranked |
| Scenarios.DecreaseReorders | ContentPopulatityCalculator.java:26-50 | after content 1 drops to 0, the top two are content 2 then content 1, and content 2 is the most popular |
| Scenarios.TieTwo | ContentPopulatityCalculator.java:38-50 | increasing both contents by 5 at the same clock reading gives both score 5, with both ranked |
| Scenarios.TiesKeepBoth | ContentPopulatityCalculator.java:17-50 | two contents raised to the same score at the same clock reading are both ranked, the smaller id first |

## Left out

- Concurrency is not modelled. The `ConcurrentHashMap`, the `AtomicInteger` and any interleaving of `consume` with queries are out of scope; every method runs alone.
- The wall clock `System.currentTimeMillis()` becomes a parameter. `Apply` takes `now`, and `Consume` takes `clock`, one reading per action.
- `Stream<ContentAction>` becomes a finite sequence, so an infinite stream is not modelled.
- The `TreeSet` red-black tree becomes a sorted sequence, so the logarithmic cost of its operations is not modelled.
- AsWritten.AddAsWritten: walks the ranking from the front, while the tree descends from its root. The two agree on a sorted ranking. On a ranking with a stale entry the two can differ: the tree can add a second node for a content the walk finds already ranked, and the other way round. In both counterexamples the first entry the walk meets is the tree's root and already decides the outcome, so the two agree there.
- A null action type, or a null action, is not modelled: `ActionType` has exactly the two enum values. The original skips both branches on a null type but still calls `add`.
- Outside code calling `Content.increasePopularity` directly on a returned content is not modelled. The model calls the content methods only from `Apply`.
- Popularity.IncreasedBy: uses unbounded integers, so it does not wrap at 32 bits. Ids and timestamps are unbounded too, not 64-bit. This is the intended arithmetic; the wrap of an `int` score is kept in `AsWritten.IncreasedAsWritten` and `AsWritten.DecreasedAsWritten`.
- Calculator.ContentPopulatityCalculator.Register: is not part of the original. It requires a fresh id, so re-registering an id is not modelled.
- The getters of `Content` and `ContentAction` are field reads of the model, and `Content.Snapshot()` reads all three getters at once.
- `TopN` returns a sequence of the ranked objects themselves. This matches the new `List` of shared references that `Collectors.toList` builds; the list's own mutability is not modelled.

## Findings

| source | as written | input that shows it | evidently intended | confidence | as-written member | corrected member |
|---|---|---|---|---|---|---|
| ContentPopulatityCalculator.java:43-47 | `consume` mutates a content already in the `TreeSet` and calls `add` without `remove`; the set finds its entry and keeps it at its old position | increase 1 by 5, increase 2 by 3, then decrease 1 by 10: content 1 (score 0) stays ranked ahead of content 2 (score 3) | after each action the ranking is again in comparator order: remove, update, re-insert | not executed | AsWritten.StaleEntryAsWritten | Calculator.ContentPopulatityCalculator.Apply |
| ContentPopulatityCalculator.java:17-22 | the comparator returns 0 for distinct contents with equal score and timestamp, so the `TreeSet` keeps only one of them | increase 1 by 5 and 2 by 5 within the same millisecond: content 2 never enters the ranking | distinct contents are all ranked; ties broken by id | not executed | AsWritten.TiesCollapseInRankingAsWritten | Ordering.Compare |
| ContentPopulatityCalculator.java:69-70 | the score is a 32-bit `int` and `get() + count` wraps around | increase a content with score 2147483647 by 1: its score becomes -2147483648; as written it keeps its stale place in the ranking or, depending on the tree's shape, gets a second node | a score only grows under a non-negative increase and never becomes negative | not executed | AsWritten.IncreaseOverflowsAsWritten | Popularity.IncreasedBy |
