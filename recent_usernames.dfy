/**
 * The recent-username list kept under the "recentUsernames" key. It is
 * read back most recent first; adding a name puts it at the front, drops
 * the entries with the same name ignoring case and keeps at most five;
 * removing drops every entry with that name ignoring case; clearing
 * removes the key.
 */
module RecentUsernames {
  import opened Wrappers
  import opened JsText
  import opened Sorting
  import opened Storage

  datatype RecentUsername = RecentUsername(value: string, lastUsedAt: int)

  /** How many names `addRecentUsername` keeps. */
  const MAX_RECENT: nat := 5

  /** The comparator `b.lastUsedAt - a.lastUsedAt` as an ascending key. */
  function Recency(u: RecentUsername): Key {
    Key(-u.lastUsedAt, 0)
  }

  ghost predicate MostRecentFirst(list: seq<RecentUsername>) {
    forall i, j :: 0 <= i < j < |list| ==> list[i].lastUsedAt >= list[j].lastUsedAt
  }

  lemma RecencyOrder(list: seq<RecentUsername>)
    ensures SortedBy(list, Recency) <==> MostRecentFirst(list)
  {
  }

  /**
   * `getRecentUsernames` on what the key holds: the stored list sorted
   * most recent first; nothing stored, or text that does not parse, gives
   * the empty list.
   */
  function ReadList(item: Option<Stored<seq<RecentUsername>>>): (r: seq<RecentUsername>)
    ensures MostRecentFirst(r)
    ensures item.Some? && item.value.Json? ==> multiset(r) == multiset(item.value.value)
    ensures !(item.Some? && item.value.Json?) ==> r == []
  {
    match item
    case Some(Json(list)) =>
      var sorted := SortBy(list, Recency);
      RecencyOrder(sorted);
      sorted
    case _ => []
  }

  /** `toLowerCase` equality, the only way names are compared. */
  predicate SameName(a: string, b: string) {
    Lower(a) == Lower(b)
  }

  /** `list.filter(u => u.value.toLowerCase() !== value.toLowerCase())`. */
  function Without(list: seq<RecentUsername>, value: string): (r: seq<RecentUsername>)
    ensures |r| <= |list|
  {
    if list == [] then []
    else
      var front, last := list[..|list| - 1], list[|list| - 1];
      Without(front, value) + if SameName(last.value, value) then [] else [last]
  }

  /** Exactly the entries with another name survive. */
  lemma {:induction false} WithoutMembers(list: seq<RecentUsername>, value: string, u: RecentUsername)
    ensures u in Without(list, value) <==> u in list && !SameName(u.value, value)
  {
    if list != [] {
      var front := list[..|list| - 1];
      WithoutMembers(front, value, u);
      assert list == front + [list[|list| - 1]];
    }
  }

  /** Filtering keeps the surviving entries in their order. */
  lemma {:induction false} WithoutKeepsOrder(list: seq<RecentUsername>, value: string)
    requires MostRecentFirst(list)
    ensures MostRecentFirst(Without(list, value))
  {
    if list != [] {
      var front, last := list[..|list| - 1], list[|list| - 1];
      assert MostRecentFirst(front);
      WithoutKeepsOrder(front, value);
      if !SameName(last.value, value) {
        var kept := Without(front, value);
        forall i | 0 <= i < |kept| ensures kept[i].lastUsedAt >= last.lastUsedAt {
          WithoutMembers(front, value, kept[i]);
        }
      }
    }
  }

  /**
   * `[{ value, lastUsedAt: now }, ...filtered].slice(0, 5)`: the new entry
   * first, then the entries with another name in their order, up to five
   * entries in all.
   */
  function Added(list: seq<RecentUsername>, value: string, now: int): (r: seq<RecentUsername>)
    ensures 1 <= |r| <= MAX_RECENT
    ensures |r| == if 1 + |Without(list, value)| < MAX_RECENT then 1 + |Without(list, value)| else MAX_RECENT
    ensures r[0] == RecentUsername(value, now)
    ensures forall k :: 1 <= k < |r| ==> r[k] == Without(list, value)[k - 1]
    ensures forall k :: 1 <= k < |r| ==> !SameName(r[k].value, value)
  {
    var filtered := Without(list, value);
    var updated := [RecentUsername(value, now)] + filtered;
    var r := updated[..if |updated| < MAX_RECENT then |updated| else MAX_RECENT];
    assert forall k :: 1 <= k < |r| ==> r[k] == filtered[k - 1] && r[k] in filtered;
    forall k | 1 <= k < |r| ensures !SameName(r[k].value, value) {
      WithoutMembers(list, value, r[k]);
    }
    r
  }

  /**
   * Below the cap nothing is lost: every entry with another name is kept
   * after the new one.
   */
  lemma AddedKeepsOtherNames(list: seq<RecentUsername>, value: string, now: int, u: RecentUsername)
    requires |list| < MAX_RECENT
    requires u in list && !SameName(u.value, value)
    ensures u in Added(list, value, now)[1..]
  {
    var filtered := Without(list, value);
    WithoutMembers(list, value, u);
    var i :| 0 <= i < |filtered| && filtered[i] == u;
    assert Added(list, value, now)[1..][i] == u;
  }

  /**
   * When no stored entry is newer than `now`, the list written by an add
   * reads back unchanged, so the next read starts with the added name.
   */
  lemma AddedReadsBack(list: seq<RecentUsername>, value: string, now: int)
    requires MostRecentFirst(list)
    requires forall k :: 0 <= k < |list| ==> list[k].lastUsedAt <= now
    ensures ReadList(Some(Json(Added(list, value, now)))) == Added(list, value, now)
    ensures ReadList(Some(Json(Added(list, value, now))))[0] == RecentUsername(value, now)
  {
    var filtered := Without(list, value);
    WithoutKeepsOrder(list, value);
    var updated := [RecentUsername(value, now)] + filtered;
    forall k | 0 <= k < |filtered| ensures filtered[k].lastUsedAt <= now {
      WithoutMembers(list, value, filtered[k]);
    }
    assert MostRecentFirst(updated) by {
      forall i, j | 0 <= i < j < |updated| ensures updated[i].lastUsedAt >= updated[j].lastUsedAt {
        if i > 0 {
          assert updated[i] == filtered[i - 1] && updated[j] == filtered[j - 1];
        }
      }
    }
    var r := Added(list, value, now);
    assert MostRecentFirst(r);
    RecencyOrder(r);
    SortBySorted(r, Recency);
  }

  /** The list written by a remove reads back unchanged. */
  lemma RemovedReadsBack(item: Option<Stored<seq<RecentUsername>>>, value: string)
    ensures ReadList(Some(Json(Without(ReadList(item), value)))) == Without(ReadList(item), value)
  {
    var r := Without(ReadList(item), value);
    WithoutKeepsOrder(ReadList(item), value);
    RecencyOrder(r);
    SortBySorted(r, Recency);
  }

  /** The "recentUsernames" key of the store. */
  class RecentStore {
    var item: Option<Stored<seq<RecentUsername>>>

    constructor(item: Option<Stored<seq<RecentUsername>>>)
      ensures this.item == item
    {
      this.item := item;
    }

    /** `addRecentUsername`, with `Date.now()` passed in as `now`. */
    method AddRecentUsername(value: string, now: int)
      modifies this
      ensures item == Some(Json(Added(ReadList(old(item)), value, now)))
    {
      var list := ReadList(item);
      item := Some(Json(Added(list, value, now)));
    }

    /** `removeRecentUsername`. */
    method RemoveRecentUsername(value: string)
      modifies this
      ensures item == Some(Json(Without(ReadList(old(item)), value)))
      ensures ReadList(item) == Without(ReadList(old(item)), value)
    {
      var list := ReadList(item);
      RemovedReadsBack(item, value);
      item := Some(Json(Without(list, value)));
    }

    /** `clearRecentUsernames`: the key is removed, so the next read is empty. */
    method ClearRecentUsernames()
      modifies this
      ensures item == None && ReadList(item) == []
    {
      item := None;
    }
  }
}
