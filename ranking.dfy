/** The ranking as a sequence of record snapshots kept in comparator order:
    the abstract view of the TreeSet `sortedContents`. */
module Ranking {
  import opened Popularity
  import opened Ordering

  /** Every entry is ranked strictly before every later entry. */
  ghost predicate Sorted(ks: seq<Record>)
  {
    forall i, j :: 0 <= i < j < |ks| ==> Precedes(ks[i], ks[j])
  }

  /** Where `k` goes: past the leading entries ranked before it. */
  function Position(ks: seq<Record>, k: Record): (p: nat)
    ensures p <= |ks|
    ensures forall j :: 0 <= j < p ==> Precedes(ks[j], k)
    ensures p < |ks| ==> !Precedes(ks[p], k)
  {
    if ks == [] || !Precedes(ks[0], k) then 0 else 1 + Position(ks[1..], k)
  }

  /** The ranking with `k` added at its position: one entry longer, holding
      exactly the old entries and `k`, with `k` after every entry ranked
      before it. */
  function Insert(ks: seq<Record>, k: Record): (r: seq<Record>)
    ensures |r| == |ks| + 1
    ensures multiset(r) == multiset(ks) + multiset{k}
    ensures r[Position(ks, k)] == k
    ensures forall j :: 0 <= j < Position(ks, k) ==> Precedes(r[j], k)
  {
    var p := Position(ks, k);
    assert ks == ks[..p] + ks[p..];
    ks[..p] + [k] + ks[p..]
  }

  /** A sorted ranking holds no record twice. */
  lemma SortedDistinct(ks: seq<Record>, i: int, j: int)
    requires Sorted(ks)
    requires 0 <= i < j < |ks|
    ensures ks[i] != ks[j]
  {
    PrecedesTrichotomy(ks[i], ks[i]);
  }

  /** In a sorted ranking, the entries from `Position` on come after `k`. */
  lemma PositionSplits(ks: seq<Record>, k: Record)
    requires Sorted(ks)
    requires k !in ks
    ensures forall j :: Position(ks, k) <= j < |ks| ==> Precedes(k, ks[j])
  {
    var p := Position(ks, k);
    if p < |ks| {
      PrecedesTrichotomy(ks[p], k);
      forall j | p < j < |ks| ensures Precedes(k, ks[j]) {
        PrecedesTransitive(k, ks[p], ks[j]);
      }
    }
  }

  /** Inserting a record that is not yet ranked keeps the ranking sorted and
      adds exactly that record. */
  lemma InsertSorted(ks: seq<Record>, k: Record)
    requires Sorted(ks)
    requires k !in ks
    ensures Sorted(Insert(ks, k))
    ensures multiset(Insert(ks, k)) == multiset(ks) + multiset{k}
    ensures |Insert(ks, k)| == |ks| + 1
  {
    var p := Position(ks, k);
    PositionSplits(ks, k);
    var r := ks[..p] + [k] + ks[p..];
    assert |r| == |ks| + 1;
    assert forall j :: 0 <= j < p ==> r[j] == ks[j];
    assert r[p] == k;
    assert forall j :: p < j < |r| ==> r[j] == ks[j - 1];
    forall i, j | 0 <= i < j < |r| ensures Precedes(r[i], r[j]) {
      if j < p {
        assert Precedes(ks[i], ks[j]);
      } else if i < p && j > p {
        assert Precedes(ks[i], ks[j - 1]);
      } else if i > p {
        assert Precedes(ks[i - 1], ks[j - 1]);
      }
    }
    assert Insert(ks, k) == r;
  }

  /** Dropping one entry keeps a ranking sorted. */
  lemma SortedRemove(ks: seq<Record>, j: int)
    requires Sorted(ks)
    requires 0 <= j < |ks|
    ensures Sorted(ks[..j] + ks[j + 1..])
  {
    var r := ks[..j] + ks[j + 1..];
    forall a, b | 0 <= a < b < |r| ensures Precedes(r[a], r[b]) {
      var a' := if a < j then a else a + 1;
      var b' := if b < j then b else b + 1;
      assert r[a] == ks[a'] && r[b] == ks[b'];
    }
  }

  /** A ranking is determined by the records it holds: two sorted rankings
      with the same members are the same sequence. */
  lemma {:induction false} SortedUnique(xs: seq<Record>, ys: seq<Record>)
    requires Sorted(xs) && Sorted(ys)
    requires forall r :: r in xs <==> r in ys
    ensures xs == ys
    decreases |xs|
  {
    if xs != [] { assert xs[0] in ys; }
    if ys != [] { assert ys[0] in xs; }
    if xs != [] && ys != [] {
      if xs[0] != ys[0] {
        var a, b := xs[0], ys[0];
        assert b in xs;
        assert Precedes(a, b) by {
          var j :| 0 <= j < |xs| && xs[j] == b;
          assert j != 0;
        }
        assert a in ys;
        assert Precedes(b, a) by {
          var j :| 0 <= j < |ys| && ys[j] == a;
          assert j != 0;
        }
        PrecedesTrichotomy(a, b);
        assert false;
      }
      forall r ensures r in xs[1..] <==> r in ys[1..] {
        if r in xs[1..] {
          var j :| 1 <= j < |xs| && xs[j] == r;
          SortedDistinct(xs, 0, j);
          assert r in ys && r != ys[0];
        }
        if r in ys[1..] {
          var j :| 1 <= j < |ys| && ys[j] == r;
          SortedDistinct(ys, 0, j);
          assert r in xs && r != xs[0];
        }
      }
      SortedUnique(xs[1..], ys[1..]);
      assert xs == [xs[0]] + xs[1..] && ys == [ys[0]] + ys[1..];
    }
  }

  /** The first entry of a sorted ranking is ranked before all the others. */
  lemma SortedHeadFirst(ks: seq<Record>)
    requires Sorted(ks)
    requires ks != []
    ensures forall j :: 0 < j < |ks| ==> Precedes(ks[0], ks[j])
    ensures forall j :: 0 < j < |ks| ==> ks[0].popularity >= ks[j].popularity
  {
  }

  /** Any prefix of a sorted ranking is sorted. */
  lemma SortedPrefix(ks: seq<Record>, n: int)
    requires Sorted(ks)
    requires 0 <= n <= |ks|
    ensures Sorted(ks[..n])
  {
  }
}
