/** The popularity calculator: a registry from content id to a shared,
    mutable Content object, and a ranking that holds the same objects in
    comparator order. */
module Calculator {
  import opened Popularity
  import opened Ordering
  import opened Ranking

  datatype Option<T> = None | Some(value: T)

  /** Stream.limit rejects a negative size with an IllegalArgumentException. */
  datatype QueryError = NegativeLimit

  datatype Result<T> = Success(value: T) | Failure(error: QueryError)

  /** One ranked item, updated in place by the actions that target it. */
  class Content {
    const id: int
    var timestamp: int
    var popularity: int

    /** The original declares no constructor; this one serves Register. The
        timestamp starts at zero, the default value of a Java long field. */
    constructor (id: int, popularity: int)
      ensures this.id == id && this.popularity == popularity && timestamp == 0
    {
      this.id := id;
      this.popularity := popularity;
      timestamp := 0;
    }

    /** What the getters return now. */
    function Snapshot(): Record
      reads this
    {
      Record(id, popularity, timestamp)
    }

    method IncreasePopularity(count: int, now: int)
      modifies this
      ensures popularity == IncreasedBy(old(popularity), count)
      ensures timestamp == now
    {
      popularity := popularity + count;
      timestamp := now;
    }

    method DecreasePopularity(count: int, now: int)
      modifies this
      ensures popularity == DecreasedBy(old(popularity), count)
      ensures timestamp == now
    {
      var newCount := popularity - count;
      popularity := if newCount < 0 then 0 else newCount;
      timestamp := now;
    }
  }

  /** The snapshots of a sequence of contents, entry by entry. */
  function Snapshots(s: seq<Content>): (r: seq<Record>)
    reads set c | c in s
    ensures |r| == |s|
    ensures forall i :: 0 <= i < |s| ==> r[i] == s[i].Snapshot()
  {
    seq(|s|, i reads set c | c in s requires 0 <= i < |s| => s[i].Snapshot())
  }

  /** The index of `c` in `s`. */
  function IndexOf(s: seq<Content>, c: Content): (j: nat)
    requires c in s
    ensures j < |s| && s[j] == c
  {
    if s[0] == c then 0 else 1 + IndexOf(s[1..], c)
  }

  /** Distinct ids in a sequence give as many ids as entries. */
  lemma {:induction false} DistinctIdsCount(s: seq<Content>)
    requires forall i, j :: 0 <= i < j < |s| ==> s[i].id != s[j].id
    ensures |set c | c in s :: c.id| == |s|
  {
    if s != [] {
      var tail := s[1..];
      DistinctIdsCount(tail);
      var ids := set c | c in s :: c.id;
      var tailIds := set c | c in tail :: c.id;
      assert ids == {s[0].id} + tailIds by {
        forall x | x in ids ensures x in {s[0].id} + tailIds {
          var c :| c in s && c.id == x;
          var k :| 0 <= k < |s| && s[k] == c;
          if k > 0 {
            assert tail[k - 1] == c;
          }
        }
        assert s[0] in s;
        forall x | x in tailIds ensures x in ids {
          var c :| c in tail && c.id == x;
          assert c in s;
        }
      }
      forall c | c in tail ensures c.id != s[0].id {
        var k :| 0 <= k < |tail| && tail[k] == c;
        assert s[k + 1] == c;
      }
    }
  }

  /** Adding one object to a sequence's members adds its id to their ids. */
  lemma IdsAdded(s1: seq<Content>, s2: seq<Content>, x: Content)
    requires forall c :: c in s2 <==> c in s1 || c == x
    ensures (set c | c in s2 :: c.id) == (set c | c in s1 :: c.id) + {x.id}
  {
    var ids1, ids2 := set c | c in s1 :: c.id, set c | c in s2 :: c.id;
    forall y | y in ids2 ensures y in ids1 + {x.id} {
      var c :| c in s2 && c.id == y;
      if c != x {
        assert c in s1;
      }
    }
    forall y | y in ids1 + {x.id} ensures y in ids2 {
      if y == x.id {
        assert x in s2;
      } else {
        var c :| c in s1 && c.id == y;
        assert c in s2;
      }
    }
  }

  class ContentPopulatityCalculator {
    /** The TreeSet of the original, as a sequence in comparator order. */
    var sortedContents: seq<Content>
    /** The registry, from id to the one Content object of that id. */
    var contentMap: map<int, Content>

    /** Every object is registered under its own id, every ranked object is
        the registered one of its id, and the ranking is in comparator order. */
    ghost predicate Valid()
      reads this, contentMap.Values
    {
      && (forall id :: id in contentMap ==> contentMap[id].id == id)
      && (forall c :: c in sortedContents ==> c.id in contentMap && contentMap[c.id] == c)
      && Sorted(Snapshots(sortedContents))
    }

    /** The registry as values: the record of every registered id. */
    ghost function Records(): map<int, Record>
      reads this, contentMap.Values
    {
      map id | id in contentMap :: contentMap[id].Snapshot()
    }

    /** The ids present in the ranking. */
    ghost function RankedIds(): set<int>
      reads this
    {
      set c | c in sortedContents :: c.id
    }

    constructor ()
      ensures Valid()
      ensures contentMap == map[] && sortedContents == []
    {
      sortedContents := [];
      contentMap := map[];
    }

    /** Adds a new content to the registry. It joins the ranking with the
        first action that targets it, as in the original. */
    method Register(id: int, popularity: int) returns (content: Content)
      requires Valid()
      requires id !in contentMap
      requires popularity >= 0
      modifies this
      ensures Valid()
      ensures fresh(content) && content.Snapshot() == Record(id, popularity, 0)
      ensures contentMap == old(contentMap)[id := content]
      ensures sortedContents == old(sortedContents)
      ensures Records() == old(Records())[id := Record(id, popularity, 0)]
      ensures NonNegative(old(Records())) ==> NonNegative(Records())
    {
      content := new Content(id, popularity);
      contentMap := contentMap[id := content];
      assert Snapshots(sortedContents) == old(Snapshots(sortedContents));
    }

    /** TreeSet.remove: takes `content` out of the ranking, if it is there. */
    method Unrank(content: Content)
      requires Valid()
      modifies this
      ensures Valid()
      ensures contentMap == old(contentMap)
      ensures content !in sortedContents
      ensures forall c :: c in sortedContents <==> c in old(sortedContents) && c != content
    {
      if content in sortedContents {
        var j := IndexOf(sortedContents, content);
        ghost var ks := Snapshots(sortedContents);
        forall k | 0 <= k < |sortedContents| && k != j ensures sortedContents[k] != content {
          if k < j { SortedDistinct(ks, k, j); } else { SortedDistinct(ks, j, k); }
        }
        SortedRemove(ks, j);
        sortedContents := sortedContents[..j] + sortedContents[j + 1..];
        assert Snapshots(sortedContents) == ks[..j] + ks[j + 1..];
      }
    }

    /** TreeSet.add of a registered content that is not ranked: puts it at
        the position its score and timestamp give it. */
    method Rank(content: Content)
      requires Valid()
      requires content.id in contentMap && contentMap[content.id] == content
      requires content !in sortedContents
      modifies this
      ensures Valid()
      ensures contentMap == old(contentMap)
      ensures forall c :: c in sortedContents <==> c in old(sortedContents) || c == content
    {
      ghost var rest := Snapshots(sortedContents);
      var k := content.Snapshot();
      assert k !in rest by {
        forall i | 0 <= i < |rest| ensures rest[i].id != k.id {
          assert sortedContents[i] in sortedContents;
        }
      }
      InsertSorted(rest, k);
      var p := Position(Snapshots(sortedContents), k);
      sortedContents := sortedContents[..p] + [content] + sortedContents[p..];
      assert Snapshots(sortedContents) == Insert(rest, k);
    }

    /** One action, as the body of the loop in consume: skip an unknown id;
        otherwise take the content out of the ranking, update it, and put it
        back at the position its new score and timestamp give it. */
    method Apply(action: ContentAction, now: int)
      requires Valid()
      modifies this, contentMap.Values
      ensures Valid()
      ensures contentMap == old(contentMap)
      ensures Records() == ApplyAction(old(Records()), action, now)
      ensures RankedIds() == old(RankedIds()) + (if action.contentId in contentMap then {action.contentId} else {})
      ensures action.contentId !in contentMap ==> sortedContents == old(sortedContents)
    {
      if action.contentId in contentMap {
        var content := contentMap[action.contentId];
        Unrank(content);
        ghost var rest := Snapshots(sortedContents);
        ghost var was := content.Snapshot();
        match action.kind {
          case Increase => content.IncreasePopularity(action.count, now);
          case Decrease => content.DecreasePopularity(action.count, now);
        }
        assert content.Snapshot() == Applied(was, action, now);
        assert Snapshots(sortedContents) == rest;
        Rank(content);
        IdsAdded(old(sortedContents), sortedContents, content);
        forall id | id in contentMap && id != action.contentId
          ensures Records()[id] == old(Records())[id]
        {
          assert contentMap[id] != content;
        }
      }
    }

    /** consume: the actions in sequence order, action `actions[i]` stamped
        with clock reading `clock[i]`. */
    method Consume(actions: seq<ContentAction>, clock: seq<int>)
      requires Valid()
      requires |clock| == |actions|
      modifies this, contentMap.Values
      ensures Valid()
      ensures contentMap == old(contentMap)
      ensures Records() == ApplyAll(old(Records()), actions, clock)
      ensures RankedIds() == old(RankedIds()) + Touched(contentMap.Keys, actions)
      ensures NonNegative(old(Records())) && CountsNonNegative(actions) ==> NonNegative(Records())
    {
      var i := 0;
      while i < |actions|
        invariant 0 <= i <= |actions|
        invariant Valid()
        invariant contentMap == old(contentMap)
        invariant Records() == ApplyAll(old(Records()), actions[..i], clock[..i])
        invariant RankedIds() == old(RankedIds()) + Touched(contentMap.Keys, actions[..i])
      {
        BatchExtended(old(Records()), contentMap.Keys, actions, clock, i);
        Apply(actions[i], clock[i]);
        i := i + 1;
      }
      assert actions[..i] == actions && clock[..i] == clock;
      if NonNegative(old(Records())) && CountsNonNegative(actions) {
        ApplyAllNonNegative(old(Records()), actions, clock);
      }
    }

    /** getMostPopularContent(n): the first n ranked contents, or all of them
        when fewer are ranked. */
    function TopN(n: int): (r: Result<seq<Content>>)
      reads this
      ensures r.Failure? <==> n < 0
      ensures r.Success? ==> |r.value| == (if n < |sortedContents| then n else |sortedContents|)
      ensures r.Success? ==> r.value <= sortedContents
    {
      if n < 0 then Failure(NegativeLimit)
      else if n < |sortedContents| then Success(sortedContents[..n])
      else Success(sortedContents)
    }

    /** getMostPopularContent(): the first-ranked content, if any. */
    function Top1(): (r: Option<Content>)
      reads this
      ensures r.None? <==> sortedContents == []
      ensures r.Some? ==> r.value == sortedContents[0]
    {
      var list := TopN(1).value;
      if list == [] then None else Some(list[0])
    }

    /** The ranking holds each of its contents once, and so each ranked id once. */
    lemma RankingDistinct()
      requires Valid()
      ensures forall i, j :: 0 <= i < j < |sortedContents| ==> sortedContents[i] != sortedContents[j]
      ensures forall i, j :: 0 <= i < j < |sortedContents| ==> sortedContents[i].id != sortedContents[j].id
      ensures |RankedIds()| == |sortedContents|
      ensures RankedIds() <= contentMap.Keys
    {
      var ks := Snapshots(sortedContents);
      forall i, j | 0 <= i < j < |sortedContents|
        ensures sortedContents[i].id != sortedContents[j].id
      {
        SortedDistinct(ks, i, j);
        assert sortedContents[i] in sortedContents && sortedContents[j] in sortedContents;
      }
      DistinctIdsCount(sortedContents);
    }

    /** The records registered under `ids`, in that order. */
    ghost function RecordsOf(ids: seq<int>): (r: seq<Record>)
      reads this, contentMap.Values
      requires forall i :: 0 <= i < |ids| ==> ids[i] in contentMap
      ensures |r| == |ids|
      ensures forall i :: 0 <= i < |ids| ==> r[i] == contentMap[ids[i]].Snapshot()
    {
      if ids == [] then [] else [contentMap[ids[0]].Snapshot()] + RecordsOf(ids[1..])
    }

    /** The ranking is determined by the ranked ids and their records: if
        listing the ranked ids in the order `ids` sorts their records, the
        ranking holds their contents in exactly that order. */
    lemma RankingDetermined(ids: seq<int>)
      requires Valid()
      requires forall i :: 0 <= i < |ids| ==> ids[i] in contentMap
      requires forall id :: id in ids <==> id in RankedIds()
      requires Sorted(RecordsOf(ids))
      ensures |sortedContents| == |ids|
      ensures forall i :: 0 <= i < |ids| ==> sortedContents[i] == contentMap[ids[i]]
    {
      var ss, ks := Snapshots(sortedContents), RecordsOf(ids);
      forall r ensures r in ss <==> r in ks {
        if r in ss {
          var i :| 0 <= i < |ss| && ss[i] == r;
          var c := sortedContents[i];
          assert c in sortedContents && c.id in RankedIds();
          var j :| 0 <= j < |ids| && ids[j] == c.id;
          assert ks[j] == r;
        }
        if r in ks {
          var j :| 0 <= j < |ks| && ks[j] == r;
          assert ids[j] in ids;
          var c :| c in sortedContents && c.id == ids[j];
          assert ss[IndexOf(sortedContents, c)] == r;
        }
      }
      SortedUnique(ss, ks);
      forall i | 0 <= i < |ids| ensures sortedContents[i] == contentMap[ids[i]] {
        assert ss[i] == ks[i];
        assert sortedContents[i] in sortedContents;
        assert sortedContents[i].id == ids[i];
      }
    }

    /** A top-n answer is in ranking order, holds no content twice, and is no
        longer than n or the number of registered contents. */
    lemma TopNRanked(n: int)
      requires Valid()
      requires n >= 0
      ensures Sorted(Snapshots(TopN(n).value))
      ensures forall i, j :: 0 <= i < j < |TopN(n).value| ==> TopN(n).value[i] != TopN(n).value[j]
      ensures |TopN(n).value| <= n
      ensures |TopN(n).value| <= |contentMap|
    {
      RankingDistinct();
      var top := TopN(n).value;
      SortedPrefix(Snapshots(sortedContents), |top|);
      assert top == sortedContents[..|top|];
      assert Snapshots(top) == Snapshots(sortedContents)[..|top|];
      var ranked, keys := RankedIds(), contentMap.Keys;
      assert keys == ranked + (keys - ranked);
      assert |keys| == |ranked| + |keys - ranked|;
    }

    /** The first-ranked content comes before every other ranked content and
        has the highest score. */
    lemma Top1IsMostPopular()
      requires Valid()
      requires Top1().Some?
      ensures forall c :: c in sortedContents && c != Top1().value ==>
        Precedes(Top1().value.Snapshot(), c.Snapshot()) && Top1().value.popularity >= c.popularity
    {
      var ks := Snapshots(sortedContents);
      SortedHeadFirst(ks);
      forall c | c in sortedContents && c != Top1().value
        ensures Precedes(Top1().value.Snapshot(), c.Snapshot())
      {
        var j := IndexOf(sortedContents, c);
        assert ks[j] == c.Snapshot();
      }
    }
  }
}
