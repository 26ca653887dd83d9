/**
 The reorder diff of the rearranging list view: the cached order of row ids
 before a data-set change is compared with the adapter's order after it, and
 every row whose index changed contributes an entry old index -> new index.
 Ids are the adapter's stable (long) ids, modelled as unbounded integers.
 */
module Movement {

  /** The index the search reports for an id it does not find. */
  const NotFound: int := -1

  /** Ids are pairwise distinct: the stable-id contract of the adapter. */
  predicate Unique(ids: seq<int>)
  {
    forall i, j :: 0 <= i < j < |ids| ==> ids[i] != ids[j]
  }

  /** The inner search of the diff: the first index of `id` in `ids`, or -1. */
  function FirstIndexOf(ids: seq<int>, id: int): (r: int)
    ensures -1 <= r < |ids|
    ensures r == NotFound <==> id !in ids
    ensures r >= 0 ==> ids[r] == id && forall j :: 0 <= j < r ==> ids[j] != id
  {
    if |ids| == 0 then NotFound
    else if ids[0] == id then 0
    else
      var r := FirstIndexOf(ids[1..], id);
      assert forall j :: 1 <= j < |ids| ==> ids[j] == ids[1..][j - 1];
      if r == NotFound then NotFound else r + 1
  }

  /** Where the diff looks for the row now at index `i`: its old index, or -1. */
  function OldIndexOf(oldIds: seq<int>, current: seq<int>, i: int): int
    requires 0 <= i < |current|
  {
    FirstIndexOf(oldIds, current[i])
  }

  /** The row now at index `i` takes part in the movement map. */
  predicate Moved(oldIds: seq<int>, current: seq<int>, i: int)
    requires 0 <= i < |current|
  {
    OldIndexOf(oldIds, current, i) != i
  }

  /**
   The movement map after the outer loop has visited the rows 0 .. n-1:
   each moved row puts (its old index -> its new index), so a later row with
   the same old index (only -1 can repeat when ids are unique) overwrites.
   */
  function MovementUpTo(oldIds: seq<int>, current: seq<int>, n: nat): map<int, int>
    requires n <= |current|
  {
    if n == 0 then map[]
    else
      var m := MovementUpTo(oldIds, current, n - 1);
      var found := OldIndexOf(oldIds, current, n - 1);
      if n - 1 != found then m[found := n - 1] else m
  }

  /** The movement map of a whole data-set change. */
  function MovementMap(oldIds: seq<int>, current: seq<int>): map<int, int>
  {
    MovementUpTo(oldIds, current, |current|)
  }

  /**
   What the map holds after n rows: every entry k -> v comes from a moved row
   v < n whose old index is k, and every moved row i < n has its old index as
   a key, mapped to i or to a later row with the same old index. Together:
   m[k] is the LAST moved row whose old index is k.
   */
  lemma {:induction false} MovementUpToEntries(oldIds: seq<int>, current: seq<int>, n: nat)
    requires n <= |current|
    ensures var m := MovementUpTo(oldIds, current, n);
      forall k | k in m :: 0 <= m[k] < n && OldIndexOf(oldIds, current, m[k]) == k && m[k] != k
    ensures var m := MovementUpTo(oldIds, current, n);
      forall i | 0 <= i < n && Moved(oldIds, current, i) ::
        OldIndexOf(oldIds, current, i) in m && i <= m[OldIndexOf(oldIds, current, i)]
  {
    if n > 0 {
      MovementUpToEntries(oldIds, current, n - 1);
      var prev := MovementUpTo(oldIds, current, n - 1);
      var m := MovementUpTo(oldIds, current, n);
      var found := OldIndexOf(oldIds, current, n - 1);
      if n - 1 != found {
        assert m == prev[found := n - 1];
        forall k | k in m
          ensures 0 <= m[k] < n && OldIndexOf(oldIds, current, m[k]) == k && m[k] != k
        {
          if k != found {
            assert k in prev && m[k] == prev[k];
          }
        }
      } else {
        assert m == prev;
      }
    }
  }

  /** Every entry of the map has key != value, and its value is a current index. */
  lemma EntriesAreMoves(oldIds: seq<int>, current: seq<int>)
    ensures var m := MovementMap(oldIds, current);
      forall k | k in m :: m[k] != k && 0 <= m[k] < |current|
  {
    MovementUpToEntries(oldIds, current, |current|);
  }

  /**
   An entry k -> v with k >= 0 links an old row to a current row with the
   same id, and k is the first index of that id in the old order.
   */
  lemma EntryMatchesFirstOldIndex(oldIds: seq<int>, current: seq<int>, k: int)
    requires k in MovementMap(oldIds, current) && k >= 0
    ensures var v := MovementMap(oldIds, current)[k];
      0 <= v < |current| && k < |oldIds| && oldIds[k] == current[v]
      && forall j :: 0 <= j < k ==> oldIds[j] != oldIds[k]
  {
    MovementUpToEntries(oldIds, current, |current|);
  }

  /**
   Every current row whose old index differs from its new one is recorded
   under its old index; conversely every key is the old index of such a row.
   */
  lemma KeysAreOldIndicesOfMovedRows(oldIds: seq<int>, current: seq<int>, k: int)
    ensures k in MovementMap(oldIds, current) <==>
      exists i :: 0 <= i < |current| && Moved(oldIds, current, i) && OldIndexOf(oldIds, current, i) == k
  {
    MovementUpToEntries(oldIds, current, |current|);
    var m := MovementMap(oldIds, current);
    if k in m {
      assert Moved(oldIds, current, m[k]) && OldIndexOf(oldIds, current, m[k]) == k;
    }
  }

  /**
   With unique ids, an unchanged order gives an empty map. (Without unique
   ids this fails: see DuplicateIdsMoveInPlace.)
   */
  lemma SameOrderIsEmpty(ids: seq<int>)
    requires Unique(ids)
    ensures MovementMap(ids, ids) == map[]
  {
    forall i | 0 <= i < |ids|
      ensures !Moved(ids, ids, i)
    {
      var r := FirstIndexOf(ids, ids[i]);
      assert 0 <= r <= i;
    }
    NoMovesNoEntries(ids, ids, |ids|);
  }

  /** If none of the first n rows moved, the map after them is empty. */
  lemma {:induction false} NoMovesNoEntries(oldIds: seq<int>, current: seq<int>, n: nat)
    requires n <= |current|
    requires forall i | 0 <= i < n :: !Moved(oldIds, current, i)
    ensures MovementUpTo(oldIds, current, n) == map[]
  {
    if n > 0 {
      NoMovesNoEntries(oldIds, current, n - 1);
      assert !Moved(oldIds, current, n - 1);
    }
  }

  /** Duplicate ids make an unchanged order report a move: [5, 5] gives {0: 1}. */
  lemma DuplicateIdsMoveInPlace()
    ensures MovementMap([5, 5], [5, 5]) == map[0 := 1]
  {
    assert FirstIndexOf([5, 5], 5) == 0;
    assert MovementUpTo([5, 5], [5, 5], 1) == map[];
  }

  /**
   An id that is missing from the old order is recorded under key -1, and
   the value kept there is the LAST current index whose id is missing.
   */
  lemma MissingIdsShareKeyNone(oldIds: seq<int>, current: seq<int>)
    ensures var m := MovementMap(oldIds, current);
      NotFound in m <==> exists i :: 0 <= i < |current| && current[i] !in oldIds
    ensures var m := MovementMap(oldIds, current);
      NotFound in m ==>
        0 <= m[NotFound] < |current| && current[m[NotFound]] !in oldIds
        && forall i :: m[NotFound] < i < |current| ==> current[i] in oldIds
  {
    MovementUpToEntries(oldIds, current, |current|);
    var m := MovementMap(oldIds, current);
    if i :| 0 <= i < |current| && current[i] !in oldIds {
      assert OldIndexOf(oldIds, current, i) == NotFound;
    }
    if NotFound in m {
      forall i | m[NotFound] < i < |current|
        ensures current[i] in oldIds
      {
        if current[i] !in oldIds {
          assert Moved(oldIds, current, i);
        }
      }
    }
  }

  /** Two orders hold the same ids, each exactly once: a pure reordering. */
  predicate IsReordering(oldIds: seq<int>, current: seq<int>)
  {
    Unique(oldIds) && Unique(current) && multiset(oldIds) == multiset(current)
  }

  /** Under a reordering every current id has an old index. */
  lemma ReorderingFindsEveryId(oldIds: seq<int>, current: seq<int>, i: int)
    requires IsReordering(oldIds, current) && 0 <= i < |current|
    ensures 0 <= OldIndexOf(oldIds, current, i) < |oldIds|
    ensures oldIds[OldIndexOf(oldIds, current, i)] == current[i]
  {
    assert current[i] in multiset(current);
  }

  /**
   Under a reordering the map is exactly the set of pairs (k, v) with
   oldIds[k] == current[v] and k != v: no key -1, and one entry per moved row.
   */
  lemma ReorderingMap(oldIds: seq<int>, current: seq<int>, k: int, v: int)
    requires IsReordering(oldIds, current)
    ensures var m := MovementMap(oldIds, current);
      (k in m && m[k] == v) <==>
        (0 <= k < |oldIds| && 0 <= v < |current| && k != v && oldIds[k] == current[v])
  {
    MovementUpToEntries(oldIds, current, |current|);
    var m := MovementMap(oldIds, current);
    if k in m && m[k] == v {
      ReorderingFindsEveryId(oldIds, current, v);
    }
    if 0 <= k < |oldIds| && 0 <= v < |current| && k != v && oldIds[k] == current[v] {
      ReorderingFindsEveryId(oldIds, current, v);
      var s := OldIndexOf(oldIds, current, v);
      assert oldIds[s] == oldIds[k];
      assert s == k;
      assert Moved(oldIds, current, v);
      var w := m[k];
      ReorderingFindsEveryId(oldIds, current, w);
      assert current[w] == oldIds[k] == current[v];
    }
  }

  /** Under a reordering no key is -1 and no two old rows move to the same new index. */
  lemma ReorderingMapIsInjective(oldIds: seq<int>, current: seq<int>)
    requires IsReordering(oldIds, current)
    ensures NotFound !in MovementMap(oldIds, current)
    ensures var m := MovementMap(oldIds, current);
      forall k1, k2 | k1 in m && k2 in m && k1 != k2 :: m[k1] != m[k2]
  {
    var m := MovementMap(oldIds, current);
    if NotFound in m {
      ReorderingMap(oldIds, current, NotFound, m[NotFound]);
    }
    forall k1, k2 | k1 in m && k2 in m && k1 != k2
      ensures m[k1] != m[k2]
    {
      ReorderingMap(oldIds, current, k1, m[k1]);
      ReorderingMap(oldIds, current, k2, m[k2]);
    }
  }
}
