/** Score arithmetic of a content record, the actions that drive it, and the
    effect of a batch of actions on the registry of records, all as values.
    The heap-based calculator in module Calculator is proved against these
    definitions. */
module Popularity {

  /** The two kinds of ContentAction. */
  datatype ActionType = Increase | Decrease

  /** A request to adjust the score of the content with id `contentId`. */
  datatype ContentAction = ContentAction(contentId: int, kind: ActionType, count: int)

  /** The value of a Content record at one moment: what its three getters return. */
  datatype Record = Record(id: int, popularity: int, timestamp: int)

  /** The two-argument ContentAction constructor: the count defaults to one. */
  function DefaultAction(contentId: int, kind: ActionType): (a: ContentAction)
    ensures a.contentId == contentId && a.kind == kind
    ensures a.count == 1
  {
    ContentAction(contentId, kind, 1)
  }

  /** The score after increasePopularity(count): the exact sum (no 32-bit wrap-around). */
  function IncreasedBy(popularity: int, count: int): (p: int)
    ensures p - count == popularity
    ensures 0 <= popularity && 0 <= count ==> popularity <= p
  {
    popularity + count
  }

  /** The score after decreasePopularity(count): the difference, floored at zero. */
  function DecreasedBy(popularity: int, count: int): (p: int)
    ensures 0 <= p
    ensures count <= popularity ==> p == popularity - count
    ensures popularity < count ==> p == 0
  {
    var newCount := popularity - count;
    if newCount < 0 then 0 else newCount
  }

  /** A record after one action, applied at clock reading `now`. */
  function Applied(r: Record, a: ContentAction, now: int): (r': Record)
    ensures r'.id == r.id
    ensures r'.timestamp == now
    ensures a.kind == Decrease ==> 0 <= r'.popularity
    ensures 0 <= r.popularity && 0 <= a.count ==> 0 <= r'.popularity
  {
    match a.kind
    case Increase => Record(r.id, IncreasedBy(r.popularity, a.count), now)
    case Decrease => Record(r.id, DecreasedBy(r.popularity, a.count), now)
  }

  /** No record has a negative score. */
  ghost predicate NonNegative(recs: map<int, Record>)
  {
    forall id :: id in recs ==> recs[id].popularity >= 0
  }

  /** Every action of the batch has a non-negative count. */
  ghost predicate CountsNonNegative(actions: seq<ContentAction>)
  {
    forall i :: 0 <= i < |actions| ==> actions[i].count >= 0
  }

  /** The registry after one action: an unknown id is skipped, a known one is
      updated and no other record changes. */
  function ApplyAction(recs: map<int, Record>, a: ContentAction, now: int): (r: map<int, Record>)
    ensures r.Keys == recs.Keys
    ensures a.contentId !in recs ==> r == recs
    ensures a.contentId in recs ==> r[a.contentId] == Applied(recs[a.contentId], a, now)
    ensures forall id :: id in recs && id != a.contentId ==> r[id] == recs[id]
  {
    if a.contentId in recs then recs[a.contentId := Applied(recs[a.contentId], a, now)] else recs
  }

  /** The registry after a batch of actions, applied in sequence order; action
      `actions[i]` is stamped with clock reading `clock[i]`. The batch never adds
      or removes an entry. */
  function ApplyAll(recs: map<int, Record>, actions: seq<ContentAction>, clock: seq<int>): (r: map<int, Record>)
    requires |clock| == |actions|
    ensures r.Keys == recs.Keys
    decreases |actions|
  {
    if actions == [] then recs
    else
      var n := |actions| - 1;
      ApplyAction(ApplyAll(recs, actions[..n], clock[..n]), actions[n], clock[n])
  }

  /** The ids of a batch that resolve in `keys`: the records the batch touches. */
  function Touched(keys: set<int>, actions: seq<ContentAction>): (t: set<int>)
    ensures t <= keys
    decreases |actions|
  {
    if actions == [] then {}
    else
      var n := |actions| - 1;
      Touched(keys, actions[..n]) + (if actions[n].contentId in keys then {actions[n].contentId} else {})
  }

  /** The touched ids are exactly the registered ids some action of the batch names. */
  lemma {:induction false} TouchedMeaning(keys: set<int>, actions: seq<ContentAction>, x: int)
    ensures x in Touched(keys, actions) <==> x in keys && exists i :: 0 <= i < |actions| && actions[i].contentId == x
    decreases |actions|
  {
    if actions != [] {
      var n := |actions| - 1;
      TouchedMeaning(keys, actions[..n], x);
      assert forall i :: 0 <= i < n ==> actions[..n][i] == actions[i];
    }
  }

  /** Extending a batch by its next action applies that action to the result. */
  lemma BatchExtended(recs: map<int, Record>, keys: set<int>, actions: seq<ContentAction>, clock: seq<int>, i: int)
    requires |clock| == |actions|
    requires 0 <= i < |actions|
    ensures ApplyAll(recs, actions[..i + 1], clock[..i + 1])
         == ApplyAction(ApplyAll(recs, actions[..i], clock[..i]), actions[i], clock[i])
    ensures Touched(keys, actions[..i + 1])
         == Touched(keys, actions[..i]) + (if actions[i].contentId in keys then {actions[i].contentId} else {})
  {
    assert actions[..i + 1][..i] == actions[..i];
    assert clock[..i + 1][..i] == clock[..i];
  }

  /** A batch never changes a record's id, and every record it changes
      carries one of the batch's clock readings. */
  lemma {:induction false} ApplyAllStamps(recs: map<int, Record>, actions: seq<ContentAction>, clock: seq<int>, id: int)
    requires |clock| == |actions|
    requires id in recs
    ensures ApplyAll(recs, actions, clock)[id].id == recs[id].id
    ensures ApplyAll(recs, actions, clock)[id] == recs[id] || ApplyAll(recs, actions, clock)[id].timestamp in clock
    decreases |actions|
  {
    if actions != [] {
      var n := |actions| - 1;
      ApplyAllStamps(recs, actions[..n], clock[..n], id);
      assert forall x :: x in clock[..n] ==> x in clock;
    }
  }

  /** With non-negative counts, no score ever becomes negative. */
  lemma {:induction false} ApplyAllNonNegative(recs: map<int, Record>, actions: seq<ContentAction>, clock: seq<int>)
    requires |clock| == |actions|
    requires NonNegative(recs)
    requires CountsNonNegative(actions)
    ensures NonNegative(ApplyAll(recs, actions, clock))
    decreases |actions|
  {
    if actions != [] {
      var n := |actions| - 1;
      ApplyAllNonNegative(recs, actions[..n], clock[..n]);
    }
  }

  /** Decreases alone, whatever their counts, keep every score non-negative:
      a score driven below zero stays pinned at zero. */
  lemma {:induction false} DecreasesKeepFloor(recs: map<int, Record>, actions: seq<ContentAction>, clock: seq<int>)
    requires |clock| == |actions|
    requires NonNegative(recs)
    requires forall i :: 0 <= i < |actions| ==> actions[i].kind == Decrease
    ensures NonNegative(ApplyAll(recs, actions, clock))
    decreases |actions|
  {
    if actions != [] {
      var n := |actions| - 1;
      DecreasesKeepFloor(recs, actions[..n], clock[..n]);
    }
  }

  /** A batch whose ids are all unknown leaves the registry as it was. */
  lemma {:induction false} ApplyAllUnknownIds(recs: map<int, Record>, actions: seq<ContentAction>, clock: seq<int>)
    requires |clock| == |actions|
    requires forall i :: 0 <= i < |actions| ==> actions[i].contentId !in recs
    ensures ApplyAll(recs, actions, clock) == recs
    decreases |actions|
  {
    if actions != [] {
      var n := |actions| - 1;
      ApplyAllUnknownIds(recs, actions[..n], clock[..n]);
    }
  }

  /** A record whose id the batch never names keeps its value. */
  lemma {:induction false} ApplyAllUntouched(recs: map<int, Record>, actions: seq<ContentAction>, clock: seq<int>, id: int)
    requires |clock| == |actions|
    requires id in recs
    requires forall i :: 0 <= i < |actions| ==> actions[i].contentId != id
    ensures id in ApplyAll(recs, actions, clock) && ApplyAll(recs, actions, clock)[id] == recs[id]
    decreases |actions|
  {
    if actions != [] {
      var n := |actions| - 1;
      ApplyAllUntouched(recs, actions[..n], clock[..n], id);
    }
  }
}
