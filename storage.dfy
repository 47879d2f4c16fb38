/**
 * The in-memory entity store `MemStorage`: maps keyed by integer id, one
 * counter per kind, pages and menu items with create / update / delete,
 * a bulk menu re-rank and a settings map keyed by name.
 *
 * A JavaScript `Map` iterates in insertion order. Every key of `pages` and
 * `menuItems` is inserted by a create, with an id drawn from a strictly
 * increasing counter, and `set` on a key already present keeps its slot, so
 * insertion order is ascending id order. The model keeps plain maps and
 * reads "insertion order" as "ascending id".
 */
module Storage {
  import opened Wrappers
  import opened Schema

  // ---------------------------------------------------------------------
  // Enumerating a map in ascending key order
  // ---------------------------------------------------------------------

  lemma {:induction false} MinExists(s: set<int>)
    requires s != {}
    ensures exists k :: k in s && forall j :: j in s ==> k <= j
    decreases |s|
  {
    assert (forall y :: y !in s) ==> s == {};
    var x :| x in s;
    var rest := s - {x};
    assert forall j :: j in s ==> j == x || j in rest;
    if rest == {} {
      assert forall j :: j in s ==> x <= j;
    } else {
      MinExists(rest);
      var k :| k in rest && forall j :: j in rest ==> k <= j;
      var m := if x < k then x else k;
      assert forall j :: j in s ==> m <= j;
      assert m in s;
    }
  }

  function MinOf(s: set<int>): (k: int)
    requires s != {}
    ensures k in s && forall j :: j in s ==> k <= j
  {
    MinExists(s);
    var k :| k in s && forall j :: j in s ==> k <= j; k
  }

  /** The keys of a set in ascending order. */
  function SortedKeys(s: set<int>): (r: seq<int>)
    ensures forall i, j :: 0 <= i < j < |r| ==> r[i] < r[j]
    ensures forall k :: k in s <==> k in r
    ensures |r| == |s|
    decreases s
  {
    if s == {} then []
    else
      var k := MinOf(s);
      [k] + SortedKeys(s - {k})
  }

  /** The values of a map, in ascending key order. */
  function ValuesInKeyOrder<V>(m: map<int, V>): (r: seq<V>)
    ensures |r| == |m|
    ensures forall i :: 0 <= i < |r| ==> SortedKeys(m.Keys)[i] in m && r[i] == m[SortedKeys(m.Keys)[i]]
  {
    var ks := SortedKeys(m.Keys);
    seq(|ks|, i requires 0 <= i < |ks| => m[ks[i]])
  }

  /** Every value of the map appears in its enumeration, and nothing else does. */
  lemma ValuesInKeyOrderElements<V>(m: map<int, V>)
    ensures forall k :: k in m ==> m[k] in ValuesInKeyOrder(m)
    ensures forall i :: 0 <= i < |ValuesInKeyOrder(m)| ==> ValuesInKeyOrder(m)[i] in m.Values
  {
    var ks := SortedKeys(m.Keys);
    var r := ValuesInKeyOrder(m);
    forall k | k in m ensures m[k] in r {
      var i := IndexIn(ks, k);
      assert r[i] == m[k];
    }
  }

  function IndexIn(ks: seq<int>, k: int): (i: nat)
    requires k in ks
    ensures i < |ks| && ks[i] == k
  {
    if ks[0] == k then 0 else 1 + IndexIn(ks[1..], k)
  }

  // ---------------------------------------------------------------------
  // getMenuItems: a stable sort by `order`
  // ---------------------------------------------------------------------

  /**
   * `Array.prototype.sort` is stable, and the items come out of the map in
   * ascending id order, so ties in `order` stay in ascending id order.
   */
  predicate RankLe(a: MenuItem, b: MenuItem) {
    a.order < b.order || (a.order == b.order && a.id <= b.id)
  }

  ghost predicate SortedByRank(s: seq<MenuItem>) {
    forall i, j :: 0 <= i < j < |s| ==> RankLe(s[i], s[j])
  }

  function InsertByRank(x: MenuItem, s: seq<MenuItem>): (r: seq<MenuItem>)
    ensures multiset(r) == multiset(s) + multiset{x}
  {
    if s == [] then [x]
    else if RankLe(x, s[0]) then [x] + s
    else
      assert s == [s[0]] + s[1..];
      [s[0]] + InsertByRank(x, s[1..])
  }

  /** Inserting into a sorted list keeps it sorted. */
  lemma {:induction false} InsertByRankSorted(x: MenuItem, s: seq<MenuItem>)
    requires SortedByRank(s)
    ensures SortedByRank(InsertByRank(x, s))
  {
    if s != [] && !RankLe(x, s[0]) {
      var rest := InsertByRank(x, s[1..]);
      InsertByRankSorted(x, s[1..]);
      forall i | 0 <= i < |rest| ensures RankLe(s[0], rest[i]) {
        assert rest[i] in multiset(rest);
        if rest[i] != x {
          assert rest[i] in multiset(s[1..]);
          var j :| 0 <= j < |s[1..]| && s[1..][j] == rest[i];
          assert s[j + 1] == rest[i];
        }
      }
      var r := [s[0]] + rest;
      forall a, b | 0 <= a < b < |r| ensures RankLe(r[a], r[b]) {
        if a > 0 {
          assert r[a] == rest[a - 1] && r[b] == rest[b - 1];
        } else {
          assert r[b] == rest[b - 1];
        }
      }
    }
  }

  function SortByRank(s: seq<MenuItem>): (r: seq<MenuItem>)
    ensures SortedByRank(r)
    ensures multiset(r) == multiset(s)
  {
    if s == [] then []
    else
      assert s == [s[0]] + s[1..];
      var sorted := SortByRank(s[1..]);
      InsertByRankSorted(s[0], sorted);
      InsertByRank(s[0], sorted)
  }

  /** The stored items of a menu map in getMenuItems order. */
  function MenuInRankOrder(m: map<int, MenuItem>): (r: seq<MenuItem>)
    ensures forall i, j :: 0 <= i < j < |r| ==> r[i].order <= r[j].order
    ensures SortedByRank(r)
    ensures multiset(r) == multiset(ValuesInKeyOrder(m))
    ensures |r| == |m|
  {
    var byId := ValuesInKeyOrder(m);
    var r := SortByRank(byId);
    SameElements(r, byId);
    r
  }

  /** When every item sits under its own id, each listed item is the one stored under its id. */
  lemma MenuInRankOrderIds(m: map<int, MenuItem>)
    requires forall k :: k in m ==> m[k].id == k
    ensures forall k :: k in m ==> m[k] in MenuInRankOrder(m)
    ensures forall i :: 0 <= i < |MenuInRankOrder(m)| ==>
      MenuInRankOrder(m)[i].id in m && m[MenuInRankOrder(m)[i].id] == MenuInRankOrder(m)[i]
  {
    MenuInRankOrderElements(m);
    var r := MenuInRankOrder(m);
    forall i | 0 <= i < |r| ensures r[i].id in m && m[r[i].id] == r[i] {
      assert r[i] in m.Values;
      var k :| k in m && m[k] == r[i];
    }
  }

  /** Every stored item appears in the getMenuItems list, and nothing else does. */
  lemma MenuInRankOrderElements(m: map<int, MenuItem>)
    ensures forall k :: k in m ==> m[k] in MenuInRankOrder(m)
    ensures forall x :: x in MenuInRankOrder(m) ==> x in m.Values
  {
    var byId := ValuesInKeyOrder(m);
    ValuesInKeyOrderElements(m);
    SameElements(MenuInRankOrder(m), byId);
  }

  /** The least key whose page carries the slug: the first such page in insertion order. */
  function LeastKeyWithSlug(m: map<int, Page>, slug: string): (r: Option<int>)
    ensures r.Some? ==> r.value in m && m[r.value].slug == slug
    ensures r.Some? ==> forall k :: k in m && m[k].slug == slug ==> r.value <= k
    ensures r.None? <==> forall k :: k in m ==> m[k].slug != slug
  {
    var ks := SortedKeys(m.Keys);
    SlugSearchInKeys(m, ks, slug);
    match FirstIndexWithSlug(m, ks, slug)
    case None => None
    case Some(i) => Some(ks[i])
  }

  /** Searching the ascending keys finds the least key with the slug, or shows there is none. */
  lemma SlugSearchInKeys(m: map<int, Page>, ks: seq<int>, slug: string)
    requires forall k :: k in m <==> k in ks
    requires forall a, b :: 0 <= a < b < |ks| ==> ks[a] < ks[b]
    ensures forall i :: 0 <= i < |ks| ==> ks[i] in m
    ensures FirstIndexWithSlug(m, ks, slug).None? ==> forall k :: k in m ==> m[k].slug != slug
    ensures FirstIndexWithSlug(m, ks, slug).Some? ==>
      forall k :: k in m && m[k].slug == slug ==> ks[FirstIndexWithSlug(m, ks, slug).value] <= k
  {
    forall i | 0 <= i < |ks| ensures ks[i] in m {
      assert ks[i] in ks;
    }
    match FirstIndexWithSlug(m, ks, slug)
    case None =>
      NoKeyWithSlug(m, ks, slug);
    case Some(i) =>
      FirstKeyWithSlugLeast(m, ks, slug, i);
  }

  /** No listed page has the slug, and every key is listed: no page has it. */
  lemma NoKeyWithSlug(m: map<int, Page>, ks: seq<int>, slug: string)
    requires forall k :: k in m ==> k in ks
    requires forall i :: 0 <= i < |ks| ==> ks[i] in m && m[ks[i]].slug != slug
    ensures forall k :: k in m ==> m[k].slug != slug
  {
    forall k | k in m ensures m[k].slug != slug {
      var j := IndexIn(ks, k);
    }
  }

  /** In ascending keys, the first key whose page has the slug is the least such key. */
  lemma FirstKeyWithSlugLeast(m: map<int, Page>, ks: seq<int>, slug: string, i: nat)
    requires forall k :: k in m ==> k in ks
    requires forall a, b :: 0 <= a < b < |ks| ==> ks[a] < ks[b]
    requires i < |ks| && forall j :: 0 <= j < i ==> ks[j] in m && m[ks[j]].slug != slug
    ensures forall k :: k in m && m[k].slug == slug ==> ks[i] <= k
  {
    forall k | k in m && m[k].slug == slug ensures ks[i] <= k {
      var j := IndexIn(ks, k);
      if i < j {
        assert ks[i] < ks[j];
      }
    }
  }

  /** The first index of `ks` whose page has the slug. */
  function FirstIndexWithSlug(m: map<int, Page>, ks: seq<int>, slug: string): (r: Option<nat>)
    requires forall i :: 0 <= i < |ks| ==> ks[i] in m
    ensures r.Some? ==> r.value < |ks| && m[ks[r.value]].slug == slug
    ensures r.Some? ==> forall j :: 0 <= j < r.value ==> m[ks[j]].slug != slug
    ensures r.None? <==> forall i :: 0 <= i < |ks| ==> m[ks[i]].slug != slug
  {
    if ks == [] then None
    else if m[ks[0]].slug == slug then Some(0)
    else
      match FirstIndexWithSlug(m, ks[1..], slug)
      case None => None
      case Some(i) => Some(i + 1)
  }

  // ---------------------------------------------------------------------
  // Field shaping
  // ---------------------------------------------------------------------

  /** `x || null` on an optional string: absent, null and "" all become null. */
  function OrNull(x: Option<string>): (r: Option<string>)
    ensures r.Some? <==> x.Some? && x.value != ""
    ensures r.Some? ==> r == x
  {
    if x.Some? && x.value != "" then x else None
  }

  /**
   * The record updateMenuItem builds: id and order are the stored ones;
   * text, type, internalLink and externalUrl come from the update when it
   * carries them (`!== undefined`), otherwise from the stored item.
   */
  function MergeMenuFields(m: MenuItem, patch: MenuItemPatch): (r: MenuItem)
    ensures r.id == m.id && r.order == m.order
    ensures patch.text.Some? ==> r.text == patch.text.value
    ensures patch.text.None? ==> r.text == m.text
    ensures patch.linkType.Some? ==> r.linkType == patch.linkType.value
    ensures patch.linkType.None? ==> r.linkType == m.linkType
    ensures patch.internalLink.Some? ==> r.internalLink == patch.internalLink.value
    ensures patch.internalLink.None? ==> r.internalLink == m.internalLink
    ensures patch.externalUrl.Some? ==> r.externalUrl == patch.externalUrl.value
    ensures patch.externalUrl.None? ==> r.externalUrl == m.externalUrl
  {
    MenuItem(
      m.id,
      patch.text.GetOr(m.text),
      m.order,
      patch.linkType.GetOr(m.linkType),
      patch.internalLink.GetOr(m.internalLink),
      patch.externalUrl.GetOr(m.externalUrl))
  }

  /** The position of the last occurrence of k: later writes in the reorder loop win. */
  function LastIndex(ids: seq<int>, k: int): (i: nat)
    requires k in ids
    ensures i < |ids| && ids[i] == k
    ensures forall j :: i < j < |ids| ==> ids[j] != k
  {
    if ids[|ids| - 1] == k then |ids| - 1
    else
      assert k in ids[..|ids| - 1] by {
        var j :| 0 <= j < |ids| && ids[j] == k;
        assert ids[..|ids| - 1][j] == k;
      }
      var i := LastIndex(ids[..|ids| - 1], k);
      assert ids[..|ids| - 1][i] == ids[i];
      i
  }

  /** The menu map after reorderMenuItems has processed `ids`. */
  function Reranked(m: map<int, MenuItem>, ids: seq<int>): map<int, MenuItem> {
    map k | k in m :: if k in ids then m[k].(order := LastIndex(ids, k) + 1) else m[k]
  }

  class MemStorage {
    var pages: map<int, Page>
    var menuItems: map<int, MenuItem>
    var settings: map<string, Setting>
    var pageCurrentId: int
    var menuItemCurrentId: int
    var settingCurrentId: int

    /**
     * Every entry sits under its own id, every id is below the counter that
     * will hand out the next one, and every setting sits under its name.
     */
    ghost predicate Valid()
      reads this
    {
      && (forall k :: k in pages ==> pages[k].id == k && k < pageCurrentId)
      && (forall k :: k in menuItems ==> menuItems[k].id == k && k < menuItemCurrentId)
      && (forall n :: n in settings ==> settings[n].name == n && settings[n].id < settingCurrentId)
    }

    /**
     * An empty store seeded with the three default pages (ids 1..3, created
     * at `now`; their HTML bodies are parameters) and the four default menu
     * items (ids 1..4, orders 1..4, all internal).
     */
    constructor (now: Timestamp, homeHtml: string, servicesHtml: string, siteHtml: string)
      ensures Valid()
      ensures pages == map[
        1 := Page(1, "Início", "home", homeHtml, Some(now), Some(now)),
        2 := Page(2, "Serviços", "servicos", servicesHtml, Some(now), Some(now)),
        3 := Page(3, "Site", "site", siteHtml, Some(now), Some(now))]
      ensures menuItems == map[
        1 := MenuItem(1, "Início", 1, Internal, Some("home"), None),
        2 := MenuItem(2, "Serviços", 2, Internal, Some("servicos"), None),
        3 := MenuItem(3, "Site", 3, Internal, Some("site"), None),
        4 := MenuItem(4, "Alex", 4, Internal, Some("alex"), None)]
      ensures settings == map[]
      ensures pageCurrentId == 4 && menuItemCurrentId == 5 && settingCurrentId == 1
    {
      pages := map[];
      menuItems := map[];
      settings := map[];
      pageCurrentId := 1;
      menuItemCurrentId := 1;
      settingCurrentId := 1;
      new;
      SeedPages(now, homeHtml, servicesHtml, siteHtml);
      SeedMenu();
    }

    /** The constructor's three createPage calls, on an empty page map. */
    method SeedPages(now: Timestamp, homeHtml: string, servicesHtml: string, siteHtml: string)
      requires Valid() && pages == map[] && pageCurrentId == 1
      modifies this
      ensures Valid()
      ensures pages == map[
        1 := Page(1, "Início", "home", homeHtml, Some(now), Some(now)),
        2 := Page(2, "Serviços", "servicos", servicesHtml, Some(now), Some(now)),
        3 := Page(3, "Site", "site", siteHtml, Some(now), Some(now))]
      ensures pageCurrentId == 4
      ensures menuItems == old(menuItems) && settings == old(settings)
      ensures menuItemCurrentId == old(menuItemCurrentId) && settingCurrentId == old(settingCurrentId)
    {
      var _ := CreatePage(PageInput("Início", "home", homeHtml), now);
      var _ := CreatePage(PageInput("Serviços", "servicos", servicesHtml), now);
      var _ := CreatePage(PageInput("Site", "site", siteHtml), now);
    }

    /** The constructor's four createMenuItem calls, on an empty menu map. */
    method SeedMenu()
      requires Valid() && menuItems == map[] && menuItemCurrentId == 1
      modifies this
      ensures Valid()
      ensures menuItems == map[
        1 := MenuItem(1, "Início", 1, Internal, Some("home"), None),
        2 := MenuItem(2, "Serviços", 2, Internal, Some("servicos"), None),
        3 := MenuItem(3, "Site", 3, Internal, Some("site"), None),
        4 := MenuItem(4, "Alex", 4, Internal, Some("alex"), None)]
      ensures menuItemCurrentId == 5
      ensures pages == old(pages) && settings == old(settings)
      ensures pageCurrentId == old(pageCurrentId) && settingCurrentId == old(settingCurrentId)
    {
      var _ := CreateMenuItem(MenuItemInput("Início", 1, Internal, Some("home"), None));
      var _ := CreateMenuItem(MenuItemInput("Serviços", 2, Internal, Some("servicos"), None));
      var _ := CreateMenuItem(MenuItemInput("Site", 3, Internal, Some("site"), None));
      var _ := CreateMenuItem(MenuItemInput("Alex", 4, Internal, Some("alex"), None));
    }

    // ---- pages ----

    /** getPages: every page, in ascending id order. */
    function GetPages(): (r: seq<Page>)
      reads this
      requires Valid()
      ensures |r| == |pages|
      ensures forall i, j :: 0 <= i < j < |r| ==> r[i].id < r[j].id
      ensures forall k :: k in pages ==> pages[k] in r
      ensures forall i :: 0 <= i < |r| ==> r[i].id in pages && pages[r[i].id] == r[i]
    {
      var r := ValuesInKeyOrder(pages);
      ValuesInKeyOrderElements(pages);
      r
    }

    /** getPage: the page stored under `id`. */
    function GetPage(id: int): (r: Option<Page>)
      reads this
      ensures r.Some? <==> id in pages
      ensures r.Some? ==> r.value == pages[id]
    {
      if id in pages then Some(pages[id]) else None
    }

    /**
     * getPageBySlug: the first page with that slug in insertion order. Slugs
     * are never checked for uniqueness, so this is the page with the least
     * id among those carrying the slug.
     */
    function GetPageBySlug(slug: string): (r: Option<Page>)
      reads this
      requires Valid()
      ensures r.Some? ==> r.value.id in pages && pages[r.value.id] == r.value && r.value.slug == slug
      ensures r.Some? ==> forall k :: k in pages && pages[k].slug == slug ==> r.value.id <= k
      ensures r.None? <==> forall k :: k in pages ==> pages[k].slug != slug
    {
      match LeastKeyWithSlug(pages, slug)
      case None => None
      case Some(k) => Some(pages[k])
    }

    /**
     * createPage: the new page takes the current counter as its id (fresh:
     * no stored page has it), both timestamps are `now`, nothing else changes.
     */
    method CreatePage(input: PageInput, now: Timestamp) returns (p: Page)
      requires Valid()
      modifies this
      ensures Valid()
      ensures p == Page(old(pageCurrentId), input.title, input.slug, input.content, Some(now), Some(now))
      ensures p.id !in old(pages)
      ensures pages == old(pages)[p.id := p]
      ensures pageCurrentId == old(pageCurrentId) + 1
      ensures menuItems == old(menuItems) && settings == old(settings)
      ensures menuItemCurrentId == old(menuItemCurrentId) && settingCurrentId == old(settingCurrentId)
    {
      var id := pageCurrentId;
      pageCurrentId := pageCurrentId + 1;
      p := Page(id, input.title, input.slug, input.content, Some(now), Some(now));
      pages := pages[id := p];
    }

    /**
     * updatePage: absent for an unknown id, with nothing changed; otherwise
     * the supplied title / slug / content overlay the stored page, id and
     * createdAt stay, updatedAt becomes `now`.
     */
    method UpdatePage(id: int, patch: PagePatch, now: Timestamp) returns (r: Option<Page>)
      requires Valid()
      requires IsInsertPagePatch(patch)
      modifies this
      ensures Valid()
      ensures old(id !in pages) ==> r.None? && pages == old(pages)
      ensures old(id in pages) ==> r == Some(OverlayPage(old(pages[id]), patch).(updatedAt := Some(now)))
      ensures old(id in pages) ==> pages == old(pages)[id := r.value]
      ensures r.Some? ==> r.value.id == id && r.value.createdAt == old(pages[id].createdAt)
      ensures menuItems == old(menuItems) && settings == old(settings)
      ensures pageCurrentId == old(pageCurrentId) && menuItemCurrentId == old(menuItemCurrentId)
      ensures settingCurrentId == old(settingCurrentId)
    {
      if id !in pages {
        return None;
      }
      var updated := OverlayPage(pages[id], patch).(updatedAt := Some(now));
      pages := pages[id := updated];
      r := Some(updated);
    }

    /** deletePage: true iff a page was stored under `id`; only that entry goes. */
    method DeletePage(id: int) returns (existed: bool)
      requires Valid()
      modifies this
      ensures Valid()
      ensures existed == (id in old(pages))
      ensures pages == old(pages) - {id}
      ensures menuItems == old(menuItems) && settings == old(settings)
      ensures pageCurrentId == old(pageCurrentId) && menuItemCurrentId == old(menuItemCurrentId)
      ensures settingCurrentId == old(settingCurrentId)
    {
      existed := id in pages;
      pages := pages - {id};
    }

    // ---- menu items ----

    /**
     * getMenuItems: every menu item, ascending by `order` (ties in ascending
     * id, the insertion order the stable sort keeps).
     */
    function GetMenuItems(): (r: seq<MenuItem>)
      reads this
      requires Valid()
      ensures forall i, j :: 0 <= i < j < |r| ==> r[i].order <= r[j].order
      ensures SortedByRank(r)
      ensures |r| == |menuItems|
      ensures forall k :: k in menuItems ==> menuItems[k] in r
      ensures forall i :: 0 <= i < |r| ==> r[i].id in menuItems && menuItems[r[i].id] == r[i]
    {
      MenuInRankOrderIds(menuItems);
      MenuInRankOrder(menuItems)
    }

    /** getMenuItem: the item stored under `id`. */
    function GetMenuItem(id: int): (r: Option<MenuItem>)
      reads this
      ensures r.Some? <==> id in menuItems
      ensures r.Some? ==> r.value == menuItems[id]
    {
      if id in menuItems then Some(menuItems[id]) else None
    }

    /**
     * createMenuItem: a fresh id from the counter, the caller's `order`
     * stored as given, and a missing or empty link / URL stored as null.
     */
    method CreateMenuItem(input: MenuItemInput) returns (m: MenuItem)
      requires Valid()
      modifies this
      ensures Valid()
      ensures m == MenuItem(old(menuItemCurrentId), input.text, input.order, input.linkType,
                            OrNull(input.internalLink), OrNull(input.externalUrl))
      ensures m.id !in old(menuItems)
      ensures menuItems == old(menuItems)[m.id := m]
      ensures menuItemCurrentId == old(menuItemCurrentId) + 1
      ensures pages == old(pages) && settings == old(settings)
      ensures pageCurrentId == old(pageCurrentId) && settingCurrentId == old(settingCurrentId)
    {
      var id := menuItemCurrentId;
      menuItemCurrentId := menuItemCurrentId + 1;
      m := MenuItem(id, input.text, input.order, input.linkType,
                    OrNull(input.internalLink), OrNull(input.externalUrl));
      menuItems := menuItems[id := m];
    }

    /**
     * updateMenuItem: absent for an unknown id, with nothing changed;
     * otherwise the stored item merged with the supplied fields, with its id
     * and order kept.
     */
    method UpdateMenuItem(id: int, patch: MenuItemPatch) returns (r: Option<MenuItem>)
      requires Valid()
      modifies this
      ensures Valid()
      ensures old(id !in menuItems) ==> r.None? && menuItems == old(menuItems)
      ensures old(id in menuItems) ==> r == Some(MergeMenuFields(old(menuItems[id]), patch))
      ensures old(id in menuItems) ==> menuItems == old(menuItems)[id := r.value]
      ensures r.Some? ==> r.value.id == id && r.value.order == old(menuItems[id].order)
      ensures pages == old(pages) && settings == old(settings)
      ensures pageCurrentId == old(pageCurrentId) && menuItemCurrentId == old(menuItemCurrentId)
      ensures settingCurrentId == old(settingCurrentId)
    {
      if id !in menuItems {
        return None;
      }
      var updated := MergeMenuFields(menuItems[id], patch);
      menuItems := menuItems[id := updated];
      r := Some(updated);
    }

    /** deleteMenuItem: true iff an item was stored under `id`; only that entry goes. */
    method DeleteMenuItem(id: int) returns (existed: bool)
      requires Valid()
      modifies this
      ensures Valid()
      ensures existed == (id in old(menuItems))
      ensures menuItems == old(menuItems) - {id}
      ensures pages == old(pages) && settings == old(settings)
      ensures pageCurrentId == old(pageCurrentId) && menuItemCurrentId == old(menuItemCurrentId)
      ensures settingCurrentId == old(settingCurrentId)
    {
      existed := id in menuItems;
      menuItems := menuItems - {id};
    }

    /**
     * reorderMenuItems: for each index i of `itemIds` whose id is stored,
     * that item's order becomes i + 1 (a repeated id keeps its last index);
     * unknown ids are skipped, unlisted items keep their order; the result
     * is getMenuItems afterwards.
     */
    method ReorderMenuItems(itemIds: seq<int>) returns (r: seq<MenuItem>)
      requires Valid()
      modifies this
      ensures Valid()
      ensures menuItems == Reranked(old(menuItems), itemIds)
      ensures r == GetMenuItems()
      ensures pages == old(pages) && settings == old(settings)
      ensures pageCurrentId == old(pageCurrentId) && menuItemCurrentId == old(menuItemCurrentId)
      ensures settingCurrentId == old(settingCurrentId)
    {
      ghost var before := menuItems;
      for i := 0 to |itemIds|
        invariant menuItems == Reranked(before, itemIds[..i])
        invariant pages == old(pages) && settings == old(settings)
        invariant pageCurrentId == old(pageCurrentId) && menuItemCurrentId == old(menuItemCurrentId)
        invariant settingCurrentId == old(settingCurrentId)
      {
        var id := itemIds[i];
        if id in menuItems {
          menuItems := menuItems[id := menuItems[id].(order := i + 1)];
        }
        RerankedStep(before, itemIds, i);
      }
      assert itemIds[..|itemIds|] == itemIds;
      r := GetMenuItems();
    }

    // ---- settings ----

    /** getSetting: the setting stored under `name`. */
    function GetSetting(name: string): (r: Option<Setting>)
      reads this
      ensures r.Some? <==> name in settings
      ensures r.Some? ==> r.value == settings[name]
    {
      if name in settings then Some(settings[name]) else None
    }

    /**
     * saveSetting: the setting is stored under its name, replacing any
     * earlier one, and always takes a fresh id from the counter.
     */
    method SaveSetting(input: SettingInput) returns (s: Setting)
      requires Valid()
      modifies this
      ensures Valid()
      ensures s == Setting(old(settingCurrentId), input.name, input.value)
      ensures settings == old(settings)[input.name := s]
      ensures settingCurrentId == old(settingCurrentId) + 1
      ensures pages == old(pages) && menuItems == old(menuItems)
      ensures pageCurrentId == old(pageCurrentId) && menuItemCurrentId == old(menuItemCurrentId)
    {
      var id := settingCurrentId;
      settingCurrentId := settingCurrentId + 1;
      s := Setting(id, input.name, input.value);
      settings := settings[input.name := s];
    }
  }

  lemma SameElements<T>(a: seq<T>, b: seq<T>)
    requires multiset(a) == multiset(b)
    ensures |a| == |b|
    ensures forall x :: x in a <==> x in b
  {
    assert |a| == |multiset(a)|;
    assert |b| == |multiset(b)|;
    forall x ensures x in a <==> x in b {
      assert x in a <==> x in multiset(a);
      assert x in b <==> x in multiset(b);
    }
  }

  /** One step of the reorder loop: the id at index i is re-ranked to i + 1 when stored. */
  lemma RerankedStep(m: map<int, MenuItem>, ids: seq<int>, i: nat)
    requires i < |ids|
    ensures var cur := Reranked(m, ids[..i]);
      Reranked(m, ids[..i + 1]) ==
        if ids[i] in cur then cur[ids[i] := cur[ids[i]].(order := i + 1)] else cur
  {
    var pre, post := ids[..i], ids[..i + 1];
    assert post[..|post| - 1] == pre;
    forall k | k in m
      ensures (k in post) == (k in pre || k == ids[i])
      ensures k in post && k != ids[i] ==> LastIndex(post, k) == LastIndex(pre, k)
      ensures k == ids[i] ==> LastIndex(post, k) == i
    {
      assert forall x :: x in post <==> x in pre || x == ids[i] by {
        assert post == pre + [ids[i]];
      }
    }
  }

  /**
   * With no id listed twice, every listed stored item is ranked by its
   * position (index + 1), and every other item keeps its order; the keys
   * and all other fields are unchanged.
   */
  lemma {:induction false} RerankedOrders(m: map<int, MenuItem>, ids: seq<int>)
    requires forall i, j :: 0 <= i < j < |ids| ==> ids[i] != ids[j]
    ensures Reranked(m, ids).Keys == m.Keys
    ensures forall i :: 0 <= i < |ids| && ids[i] in m ==> Reranked(m, ids)[ids[i]].order == i + 1
    ensures forall k :: k in m && k !in ids ==> Reranked(m, ids)[k] == m[k]
    ensures forall k :: k in m ==> Reranked(m, ids)[k] == m[k].(order := Reranked(m, ids)[k].order)
  {
    forall i | 0 <= i < |ids| && ids[i] in m
      ensures Reranked(m, ids)[ids[i]].order == i + 1
    {
      var j := LastIndex(ids, ids[i]);
      assert j == i;
    }
  }

  /**
   * getPageBySlug finds what createPage stored: right after a page is
   * created, looking its slug up returns it unless an older page already
   * carries the same slug, in which case that older page is returned.
   */
  lemma CreateThenGetBySlug(s: MemStorage, p: Page)
    requires s.Valid() && p.id in s.pages && s.pages[p.id] == p
    requires forall k :: k in s.pages ==> k <= p.id
    ensures s.GetPageBySlug(p.slug).Some?
    ensures s.GetPageBySlug(p.slug).value.slug == p.slug
    ensures (forall k :: k in s.pages && k != p.id ==> s.pages[k].slug != p.slug) ==>
              s.GetPageBySlug(p.slug) == Some(p)
  {
    assert s.pages[p.id].slug == p.slug;
  }
}
