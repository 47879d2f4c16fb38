/**
 * The file-backed menu service: the JSON file of menu items is one list,
 * read at the start of every operation and written back after each change.
 * The list is the field `items` of a `MenuFile`; reading and writing the
 * file are not modelled.
 */
module MenuService {
  import opened Wrappers
  import opened Schema
  import opened IdList

  /**
   * The four items written when no file exists: ids 1..4, orders 1..4, all
   * internal. They carry their path in a key the menu item record does not
   * have, so both link fields are absent.
   */
  function DefaultMenuItems(): (r: seq<MenuItem>)
    ensures |r| == 4
    ensures forall i :: 0 <= i < 4 ==> r[i].id == i + 1 && r[i].order == i + 1 && r[i].linkType == Internal
    ensures UniqueKeys(r, MenuItemId)
  {
    [MenuItem(1, "Início", 1, Internal, None, None),
     MenuItem(2, "Serviços", 2, Internal, None, None),
     MenuItem(3, "Alex", 3, Internal, None, None),
     MenuItem(4, "Site", 4, Internal, None, None)]
  }

  /**
   * What index j of the id list contributes to the reordered block: the
   * first item stored under ids[j], ranked j + 1, or nothing for an id that
   * is not stored.
   */
  function Ranked(items: seq<MenuItem>, ids: seq<int>, j: nat): (r: Option<MenuItem>)
    requires j < |ids|
    ensures r.Some? ==> r.value.id == ids[j] && r.value.order == j + 1
  {
    match IndexOf(items, MenuItemId, ids[j])
    case None => None
    case Some(i) => Some(items[i].(order := j + 1))
  }

  /**
   * The contribution is the FIRST stored item with the id, as `find`
   * returns it, with every field but the rank kept.
   */
  lemma RankedFirstMatch(items: seq<MenuItem>, ids: seq<int>, j: nat)
    requires j < |ids|
    ensures Ranked(items, ids, j).Some? ==>
      exists i :: 0 <= i < |items| && items[i].id == ids[j] &&
        (forall k :: 0 <= k < i ==> items[k].id != ids[j]) &&
        Ranked(items, ids, j).value == items[i].(order := j + 1)
  {
    match IndexOf(items, MenuItemId, ids[j])
    case None =>
    case Some(i) =>
      assert items[i].id == ids[j];
  }

  /** The block reorderMenuItems builds: what each index contributes, in `ids` order. */
  function Block(items: seq<MenuItem>, ids: seq<int>): seq<MenuItem>
    decreases |ids|
  {
    if ids == [] then []
    else
      var n := |ids| - 1;
      Block(items, ids[..n]) +
        match Ranked(items, ids, n)
        case None => []
        case Some(x) => [x]
  }

  /** The last index's contribution closes the block. */
  lemma BlockLast(items: seq<MenuItem>, ids: seq<int>)
    requires ids != []
    ensures Block(items, ids) == Block(items, ids[..|ids| - 1]) +
      (if Ranked(items, ids, |ids| - 1).Some? then [Ranked(items, ids, |ids| - 1).value] else [])
  {
  }

  /** A prefix of the id list contributes the same at each of its indexes. */
  lemma RankedPrefix(items: seq<MenuItem>, ids: seq<int>, n: nat)
    requires n <= |ids|
    ensures forall j :: 0 <= j < n ==> Ranked(items, ids[..n], j) == Ranked(items, ids, j)
  {
    forall j | 0 <= j < n ensures Ranked(items, ids[..n], j) == Ranked(items, ids, j) {
      assert ids[..n][j] == ids[j];
    }
  }

  /**
   * Every entry of the block is the contribution of index order - 1, so it
   * is the first stored item with id ids[order - 1].
   */
  lemma {:induction false} BlockEntries(items: seq<MenuItem>, ids: seq<int>)
    ensures forall k :: 0 <= k < |Block(items, ids)| ==>
      1 <= Block(items, ids)[k].order <= |ids| &&
      Ranked(items, ids, Block(items, ids)[k].order - 1) == Some(Block(items, ids)[k])
    decreases |ids|
  {
    if ids != [] {
      var n := |ids| - 1;
      var head := Block(items, ids[..n]);
      BlockEntries(items, ids[..n]);
      RankedPrefix(items, ids, n);
      BlockLast(items, ids);
      var r := Block(items, ids);
      forall k | 0 <= k < |r|
        ensures 1 <= r[k].order <= |ids| && Ranked(items, ids, r[k].order - 1) == Some(r[k])
      {
        if k < |head| {
          assert r[k] == head[k];
          var j := head[k].order - 1;
          assert 0 <= j < n && Ranked(items, ids[..n], j) == Some(head[k]);
          assert Ranked(items, ids, j) == Ranked(items, ids[..n], j);
        } else {
          assert Ranked(items, ids, n) == Some(r[k]);
        }
      }
    }
  }

  /**
   * An index contributes nothing exactly when its id is not stored; what
   * it contributes is a stored record with only its rank changed.
   */
  lemma RankedStored(items: seq<MenuItem>, ids: seq<int>, j: nat)
    requires j < |ids|
    ensures Ranked(items, ids, j).None? <==> forall i :: 0 <= i < |items| ==> items[i].id != ids[j]
    ensures Ranked(items, ids, j).Some? ==> Ranked(items, ids, j).value.(order := 0) in RankFree(items)
  {
    match IndexOf(items, MenuItemId, ids[j])
    case None =>
    case Some(i) =>
      assert RankFree(items)[i] == items[i].(order := 0);
  }

  /** The block is in id-list order: ranks strictly increase. */
  lemma {:induction false} BlockAscending(items: seq<MenuItem>, ids: seq<int>)
    ensures forall a, b :: 0 <= a < b < |Block(items, ids)| ==> Block(items, ids)[a].order < Block(items, ids)[b].order
    decreases |ids|
  {
    if ids != [] {
      var n := |ids| - 1;
      var head := Block(items, ids[..n]);
      BlockAscending(items, ids[..n]);
      BlockEntries(items, ids[..n]);
      BlockLast(items, ids);
      var r := Block(items, ids);
      forall a, b | 0 <= a < b < |r| ensures r[a].order < r[b].order {
        assert r[a] == head[a];
        if b < |head| {
          assert r[b] == head[b];
        } else {
          assert r[b] == Ranked(items, ids, n).value;
        }
      }
    }
  }

  /** Every index whose id is stored contributes an entry of the block. */
  lemma {:induction false} BlockComplete(items: seq<MenuItem>, ids: seq<int>)
    ensures forall j :: 0 <= j < |ids| && Ranked(items, ids, j).Some? ==> Ranked(items, ids, j).value in Block(items, ids)
    decreases |ids|
  {
    if ids != [] {
      var n := |ids| - 1;
      var head := Block(items, ids[..n]);
      BlockComplete(items, ids[..n]);
      RankedPrefix(items, ids, n);
      BlockLast(items, ids);
      forall j | 0 <= j < |ids| && Ranked(items, ids, j).Some? ensures Ranked(items, ids, j).value in Block(items, ids) {
        if j < n {
          assert Ranked(items, ids[..n], j).value in head;
        }
      }
    }
  }

  /**
   * The block lists exactly what the indexes contribute, in index order:
   * every entry is the contribution of index order - 1, ranks strictly
   * increase, every contribution is present, and an id that is not stored
   * leaves its rank unused.
   */
  lemma BlockShape(items: seq<MenuItem>, ids: seq<int>)
    ensures var r := Block(items, ids);
      (forall k :: 0 <= k < |r| ==> 1 <= r[k].order <= |ids| && Ranked(items, ids, r[k].order - 1) == Some(r[k])) &&
      (forall a, b :: 0 <= a < b < |r| ==> r[a].order < r[b].order) &&
      (forall j :: 0 <= j < |ids| && Ranked(items, ids, j).Some? ==> Ranked(items, ids, j).value in r) &&
      (forall j :: 0 <= j < |ids| && Ranked(items, ids, j).None? ==>
         forall k :: 0 <= k < |r| ==> r[k].order != j + 1)
  {
    BlockEntries(items, ids);
    BlockAscending(items, ids);
    BlockComplete(items, ids);
  }

  /** `items.filter(item => !ids.includes(item.id))`: in stored order. */
  function NotListed(items: seq<MenuItem>, ids: seq<int>): (r: seq<MenuItem>)
    ensures forall k :: 0 <= k < |r| ==> r[k] in items && r[k].id !in ids
    ensures forall i :: 0 <= i < |items| && items[i].id !in ids ==> items[i] in r
    ensures |r| <= |items|
  {
    if items == [] then []
    else if items[0].id in ids then NotListed(items[1..], ids)
    else [items[0]] + NotListed(items[1..], ids)
  }

  /**
   * The unlisted items keep their stored order: filtering distributes over
   * appending, so an item added at the end shows up last, and only when it
   * is not listed.
   */
  lemma {:induction false} NotListedAppend(items: seq<MenuItem>, x: MenuItem, ids: seq<int>)
    ensures NotListed(items + [x], ids) == NotListed(items, ids) + (if x.id in ids then [] else [x])
  {
    if items == [] {
      assert items + [x] == [x];
    } else {
      assert (items + [x])[1..] == items[1..] + [x];
      NotListedAppend(items[1..], x, ids);
    }
  }

  /** Filtering a list with unique ids keeps them unique. */
  lemma {:induction false} NotListedUnique(items: seq<MenuItem>, ids: seq<int>)
    requires UniqueKeys(items, MenuItemId)
    ensures UniqueKeys(NotListed(items, ids), MenuItemId)
  {
    if items != [] {
      var tail := items[1..];
      assert UniqueKeys(tail, MenuItemId) by {
        forall i, j | 0 <= i < j < |tail| ensures tail[i].id != tail[j].id {
          assert tail[i] == items[i + 1] && tail[j] == items[j + 1];
        }
      }
      NotListedUnique(tail, ids);
      var rest := NotListed(tail, ids);
      if items[0].id !in ids {
        forall k | 0 <= k < |rest| ensures rest[k].id != items[0].id {
          var i :| 0 <= i < |tail| && tail[i] == rest[k];
          assert tail[i] == items[i + 1];
        }
        ConsUnique(items[0], rest);
      }
    }
  }

  /** A record whose id no other record has, put in front of a list with unique ids. */
  lemma ConsUnique(x: MenuItem, rest: seq<MenuItem>)
    requires UniqueKeys(rest, MenuItemId)
    requires forall k :: 0 <= k < |rest| ==> rest[k].id != x.id
    ensures UniqueKeys([x] + rest, MenuItemId)
  {
    var r := [x] + rest;
    forall i, j | 0 <= i < j < |r| ensures r[i].id != r[j].id {
      assert r[j] == rest[j - 1];
      if i > 0 {
        assert r[i] == rest[i - 1];
      }
    }
  }

  /**
   * With unique stored ids and no id listed twice, the reorder result holds
   * exactly the stored ids, each once, and every record in it is a stored
   * record with at most its `order` changed.
   */
  lemma ReorderIsPermutation(items: seq<MenuItem>, ids: seq<int>)
    requires UniqueKeys(items, MenuItemId)
    requires Distinct(ids)
    ensures var r := Block(items, ids) + NotListed(items, ids);
      multiset(Keys(r, MenuItemId)) == multiset(Keys(items, MenuItemId)) &&
      forall k :: 0 <= k < |r| ==> r[k].(order := 0) in RankFree(items)
  {
    var r := Block(items, ids) + NotListed(items, ids);
    var rk, ik := Keys(r, MenuItemId), Keys(items, MenuItemId);
    ReorderIdsDistinct(items, ids);
    forall x ensures x in rk <==> x in ik {
      if x in rk {
        KeyInStored(items, ids, r, x);
      }
      if x in ik {
        StoredKeyKept(items, ids, r, x);
      }
    }
    DistinctSameMembers(rk, ik);
    ReorderKeepsRecords(items, ids);
  }

  /** Every record of the reorder result is a stored record with at most its rank changed. */
  lemma ReorderKeepsRecords(items: seq<MenuItem>, ids: seq<int>)
    ensures var r := Block(items, ids) + NotListed(items, ids);
      forall k :: 0 <= k < |r| ==> r[k].(order := 0) in RankFree(items)
  {
    var block, rest := Block(items, ids), NotListed(items, ids);
    var r := block + rest;
    BlockEntries(items, ids);
    forall k | 0 <= k < |r| ensures r[k].(order := 0) in RankFree(items) {
      if k < |block| {
        assert r[k] == block[k];
        assert Ranked(items, ids, block[k].order - 1) == Some(r[k]);
        RankedStored(items, ids, block[k].order - 1);
      } else {
        assert r[k] == rest[k - |block|];
        var i :| 0 <= i < |items| && items[i] == rest[k - |block|];
        assert RankFree(items)[i] == r[k].(order := 0);
      }
    }
  }

  /** No id occurs twice in the reorder result. */
  lemma ReorderIdsDistinct(items: seq<MenuItem>, ids: seq<int>)
    requires UniqueKeys(items, MenuItemId)
    requires Distinct(ids)
    ensures Distinct(Keys(Block(items, ids) + NotListed(items, ids), MenuItemId))
  {
    var block := Block(items, ids);
    BlockEntries(items, ids);
    NotListedUnique(items, ids);
    BlockIdsDistinct(items, ids);
    forall k | 0 <= k < |block| ensures block[k].id in ids {
      assert Ranked(items, ids, block[k].order - 1) == Some(block[k]);
    }
    ConcatIdsDistinct(block, NotListed(items, ids), ids);
  }

  /** Two id-unique lists, one with only listed ids and one with none, concatenate without repeating an id. */
  lemma ConcatIdsDistinct(a: seq<MenuItem>, b: seq<MenuItem>, ids: seq<int>)
    requires UniqueKeys(a, MenuItemId) && UniqueKeys(b, MenuItemId)
    requires forall k :: 0 <= k < |a| ==> a[k].id in ids
    requires forall k :: 0 <= k < |b| ==> b[k].id !in ids
    ensures Distinct(Keys(a + b, MenuItemId))
  {
    var r := a + b;
    var rk := Keys(r, MenuItemId);
    forall x, y | 0 <= x < y < |rk| ensures rk[x] != rk[y] {
      if y < |a| {
        assert r[x] == a[x] && r[y] == a[y];
      } else if x < |a| {
        assert r[x] == a[x] && r[y] == b[y - |a|];
      } else {
        assert r[x] == b[x - |a|] && r[y] == b[y - |a|];
      }
    }
  }

  /** Every stored id occurs in the reorder result. */
  lemma StoredKeyKept(items: seq<MenuItem>, ids: seq<int>, r: seq<MenuItem>, x: int)
    requires r == Block(items, ids) + NotListed(items, ids)
    requires x in Keys(items, MenuItemId)
    ensures x in Keys(r, MenuItemId)
  {
    var ik := Keys(items, MenuItemId);
    var i :| 0 <= i < |ik| && ik[i] == x;
    if x in ids {
      var j :| 0 <= j < |ids| && ids[j] == x;
      RankedStored(items, ids, j);
      BlockComplete(items, ids);
      var y := Ranked(items, ids, j).value;
      KeyOfMember(Block(items, ids), NotListed(items, ids), y, true);
    } else {
      assert items[i].id == x;
      KeyOfMember(Block(items, ids), NotListed(items, ids), items[i], false);
    }
  }

  /** The id of a record in either part of a concatenation is among its ids. */
  lemma KeyOfMember(a: seq<MenuItem>, b: seq<MenuItem>, y: MenuItem, inFirst: bool)
    requires if inFirst then y in a else y in b
    ensures y.id in Keys(a + b, MenuItemId)
  {
    var r := a + b;
    var rk := Keys(r, MenuItemId);
    if inFirst {
      var k :| 0 <= k < |a| && a[k] == y;
      assert r[k] == y && rk[k] == y.id;
    } else {
      var k :| 0 <= k < |b| && b[k] == y;
      assert r[|a| + k] == y && rk[|a| + k] == y.id;
    }
  }

  /** The block's ids are pairwise distinct when the listed ids are. */
  lemma BlockIdsDistinct(items: seq<MenuItem>, ids: seq<int>)
    requires Distinct(ids)
    ensures UniqueKeys(Block(items, ids), MenuItemId)
  {
    var block := Block(items, ids);
    BlockShape(items, ids);
    forall a, b | 0 <= a < b < |block| ensures block[a].id != block[b].id {
      assert Ranked(items, ids, block[a].order - 1) == Some(block[a]);
      assert Ranked(items, ids, block[b].order - 1) == Some(block[b]);
    }
  }

  /** Every id in the reorder result is a stored id. */
  lemma KeyInStored(items: seq<MenuItem>, ids: seq<int>, r: seq<MenuItem>, x: int)
    requires r == Block(items, ids) + NotListed(items, ids)
    requires x in Keys(r, MenuItemId)
    ensures x in Keys(items, MenuItemId)
  {
    var block, rest := Block(items, ids), NotListed(items, ids);
    var rk, ik := Keys(r, MenuItemId), Keys(items, MenuItemId);
    var a :| 0 <= a < |rk| && rk[a] == x;
    if a < |block| {
      BlockEntries(items, ids);
      assert r[a] == block[a];
      var j := block[a].order - 1;
      assert Ranked(items, ids, j) == Some(block[a]);
      RankedStored(items, ids, j);
      var i :| 0 <= i < |items| && items[i].id == ids[j];
      assert ik[i] == x;
    } else {
      assert r[a] == rest[a - |block|];
      var i :| 0 <= i < |items| && items[i] == r[a];
      assert ik[i] == x;
    }
  }

  /** The records with their rank cleared, to compare records up to `order`. */
  function RankFree(items: seq<MenuItem>): (r: seq<MenuItem>)
    ensures |r| == |items|
    ensures forall i :: 0 <= i < |items| ==> r[i] == items[i].(order := 0)
  {
    if items == [] then [] else [items[0].(order := 0)] + RankFree(items[1..])
  }

  /** The menu file: the list every operation loads and saves. */
  class MenuFile {
    var items: seq<MenuItem>

    /** getMenuItems: the stored list, or the four defaults when there is no file yet. */
    constructor (stored: Option<seq<MenuItem>>)
      ensures items == if stored.Some? then stored.value else DefaultMenuItems()
    {
      items := if stored.Some? then stored.value else DefaultMenuItems();
    }

    /** getMenuItem: the first item with that id, or absent when there is none. */
    function GetMenuItem(id: int): (r: Option<MenuItem>)
      reads this
      ensures r.Some? ==> r.value.id == id
      ensures r.Some? ==>
        exists i :: 0 <= i < |items| && items[i] == r.value && forall j :: 0 <= j < i ==> items[j].id != id
      ensures r.None? <==> forall i :: 0 <= i < |items| ==> items[i].id != id
    {
      match IndexOf(items, MenuItemId, id)
      case None => None
      case Some(i) => Some(items[i])
    }

    /**
     * createMenuItem: the new item gets the largest stored id plus one (1 for
     * an empty list), so no stored item has it, and is appended at the end.
     */
    method CreateMenuItem(input: MenuItemInput) returns (m: MenuItem)
      modifies this
      ensures m == MenuItem(NextId(old(items), MenuItemId), input.text, input.order, input.linkType,
                            input.internalLink, input.externalUrl)
      ensures forall i :: 0 <= i < |old(items)| ==> old(items)[i].id < m.id
      ensures items == old(items) + [m]
    {
      var newId := NextId(items, MenuItemId);
      m := MenuItem(newId, input.text, input.order, input.linkType, input.internalLink, input.externalUrl);
      items := items + [m];
    }

    /**
     * updateMenuItem: absent with the list unchanged for an unknown id;
     * otherwise the first item with that id is replaced in place by its merge
     * with the supplied fields (any of them, id and order included).
     */
    method UpdateMenuItem(id: int, patch: MenuItemPatch) returns (r: Option<MenuItem>)
      modifies this
      ensures (forall i :: 0 <= i < |old(items)| ==> old(items)[i].id != id) ==>
        r.None? && items == old(items)
      ensures var k := IndexOf(old(items), MenuItemId, id);
        k.Some? ==> r == Some(OverlayMenuItem(old(items)[k.value], patch)) &&
                    items == old(items)[k.value := r.value]
    {
      var index := IndexOf(items, MenuItemId, id);
      if index.None? {
        return None;
      }
      var updated := OverlayMenuItem(items[index.value], patch);
      items := ReplaceAt(items, index.value, updated);
      r := Some(updated);
    }

    /**
     * deleteMenuItem: false with the list unchanged when no item has the id;
     * otherwise true, and exactly the first such item is spliced out.
     */
    method DeleteMenuItem(id: int) returns (existed: bool)
      modifies this
      ensures existed <==> exists i :: 0 <= i < |old(items)| && old(items)[i].id == id
      ensures !existed ==> items == old(items)
      ensures var k := IndexOf(old(items), MenuItemId, id);
        k.Some? ==> items == RemoveAt(old(items), k.value)
    {
      var index := IndexOf(items, MenuItemId, id);
      if index.None? {
        return false;
      }
      items := RemoveAt(items, index.value);
      existed := true;
    }

    /**
     * reorderMenuItems: the stored items named in `itemIds`, in that order and
     * ranked by position, followed by the unlisted items in stored order with
     * their ranks unchanged; that list is saved and returned.
     */
    method ReorderMenuItems(itemIds: seq<int>) returns (r: seq<MenuItem>)
      modifies this
      ensures r == Block(old(items), itemIds) + NotListed(old(items), itemIds)
      ensures items == r
    {
      var reordered: seq<MenuItem> := [];
      for i := 0 to |itemIds|
        invariant reordered == Block(items, itemIds[..i])
      {
        var id := itemIds[i];
        var item := Find(items, MenuItemId, id);
        if item.Some? {
          reordered := reordered + [item.value.(order := i + 1)];
        }
        assert itemIds[..i + 1][..i] == itemIds[..i];
        assert Ranked(items, itemIds[..i + 1], i) ==
          match item case None => None case Some(x) => Some(x.(order := i + 1));
      }
      assert itemIds[..|itemIds|] == itemIds;
      var otherItems := NotListed(items, itemIds);
      r := reordered + otherItems;
      items := r;
    }
  }

  /** Appending through createMenuItem keeps stored ids unique. */
  lemma CreateKeepsUnique(items: seq<MenuItem>, input: MenuItemInput)
    requires UniqueKeys(items, MenuItemId)
    ensures var m := MenuItem(NextId(items, MenuItemId), input.text, input.order, input.linkType,
                              input.internalLink, input.externalUrl);
      UniqueKeys(items + [m], MenuItemId)
  {
    var m := MenuItem(NextId(items, MenuItemId), input.text, input.order, input.linkType,
                      input.internalLink, input.externalUrl);
    AppendFreshKeepsUnique(items, MenuItemId, m);
  }
}
