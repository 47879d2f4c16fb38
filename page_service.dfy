/**
 * The file-backed page service: the JSON file of pages is one list, read at
 * the start of every operation and written back after each change. The list
 * is the field `pages` of a `PageFile`.
 */
module PageService {
  import opened Wrappers
  import opened Schema
  import opened IdList

  const HomeHtml: string :=
    "<h1 class=\"text-3xl font-bold mb-6\">Bem-vindo ao Meu Site</h1><p class=\"mb-4\">Esta é a página inicial do site. Você pode editar este conteúdo na área administrativa.</p>"
  const ServicesHtml: string :=
    "<h1 class=\"text-3xl font-bold mb-6\">Nossos Serviços</h1><p class=\"mb-4\">Aqui você encontrará informações sobre os serviços oferecidos.</p>"
  const SiteHtml: string :=
    "<h1 class=\"text-3xl font-bold mb-6\">Sobre o Site</h1><p class=\"mb-4\">Informações sobre este site e como ele foi desenvolvido.</p>"

  /**
   * The three pages written when no file exists: ids 1..3 with slugs home,
   * servicos and site, and no timestamps.
   */
  function DefaultPages(): (r: seq<Page>)
    ensures |r| == 3
    ensures forall i :: 0 <= i < 3 ==> r[i].id == i + 1 && r[i].createdAt.None? && r[i].updatedAt.None?
    ensures r[0].slug == "home" && r[1].slug == "servicos" && r[2].slug == "site"
    ensures UniqueKeys(r, PageId)
  {
    [Page(1, "Início", "home", HomeHtml, None, None),
     Page(2, "Serviços", "servicos", ServicesHtml, None, None),
     Page(3, "Informações do Site", "site", SiteHtml, None, None)]
  }

  /** `pages.findIndex(page => page.slug === slug)`. */
  function IndexOfSlug(pages: seq<Page>, slug: string): (r: Option<nat>)
    ensures r.Some? ==> r.value < |pages| && pages[r.value].slug == slug
    ensures r.Some? ==> forall j :: 0 <= j < r.value ==> pages[j].slug != slug
    ensures r.None? <==> forall j :: 0 <= j < |pages| ==> pages[j].slug != slug
  {
    if pages == [] then None
    else if pages[0].slug == slug then Some(0)
    else
      match IndexOfSlug(pages[1..], slug)
      case None => None
      case Some(i) => Some(i + 1)
  }

  /** The page file: the list every operation loads and saves. */
  class PageFile {
    var pages: seq<Page>

    /** getPages: the stored list, or the three defaults when there is no file yet. */
    constructor (stored: Option<seq<Page>>)
      ensures pages == if stored.Some? then stored.value else DefaultPages()
    {
      pages := if stored.Some? then stored.value else DefaultPages();
    }

    /** getPageBySlug: the first page with that slug, or absent when there is none. */
    function GetPageBySlug(slug: string): (r: Option<Page>)
      reads this
      ensures r.Some? ==> r.value.slug == slug
      ensures r.Some? ==>
        exists i :: 0 <= i < |pages| && pages[i] == r.value && forall j :: 0 <= j < i ==> pages[j].slug != slug
      ensures r.None? <==> forall i :: 0 <= i < |pages| ==> pages[i].slug != slug
    {
      match IndexOfSlug(pages, slug)
      case None => None
      case Some(i) => Some(pages[i])
    }

    /** getPage: the first page with that id, or absent when there is none. */
    function GetPage(id: int): (r: Option<Page>)
      reads this
      ensures r.Some? ==> r.value.id == id
      ensures r.Some? ==>
        exists i :: 0 <= i < |pages| && pages[i] == r.value && forall j :: 0 <= j < i ==> pages[j].id != id
      ensures r.None? <==> forall i :: 0 <= i < |pages| ==> pages[i].id != id
    {
      match IndexOf(pages, PageId, id)
      case None => None
      case Some(i) => Some(pages[i])
    }

    /**
     * createPage: the caller's page (everything but its id) under the largest
     * stored id plus one (1 for an empty list), appended at the end. Existing
     * slugs are not consulted.
     */
    method CreatePage(page: Page) returns (p: Page)
      modifies this
      ensures p == page.(id := NextId(old(pages), PageId))
      ensures forall i :: 0 <= i < |old(pages)| ==> old(pages)[i].id < p.id
      ensures pages == old(pages) + [p]
    {
      var newId := NextId(pages, PageId);
      p := page.(id := newId);
      pages := pages + [p];
    }

    /**
     * updatePage: absent with the list unchanged for an unknown id; otherwise
     * the first page with that id is replaced in place by its overlay with
     * the supplied fields (any of them, id and timestamps included).
     */
    method UpdatePage(id: int, patch: PagePatch) returns (r: Option<Page>)
      modifies this
      ensures (forall i :: 0 <= i < |old(pages)| ==> old(pages)[i].id != id) ==>
        r.None? && pages == old(pages)
      ensures var k := IndexOf(old(pages), PageId, id);
        k.Some? ==> r == Some(OverlayPage(old(pages)[k.value], patch)) &&
                    pages == old(pages)[k.value := r.value]
    {
      var index := IndexOf(pages, PageId, id);
      if index.None? {
        return None;
      }
      var updated := OverlayPage(pages[index.value], patch);
      pages := ReplaceAt(pages, index.value, updated);
      r := Some(updated);
    }

    /**
     * deletePage: false with the list unchanged when no page has the id;
     * otherwise true, and exactly the first such page is spliced out.
     */
    method DeletePage(id: int) returns (existed: bool)
      modifies this
      ensures existed <==> exists i :: 0 <= i < |old(pages)| && old(pages)[i].id == id
      ensures !existed ==> pages == old(pages)
      ensures var k := IndexOf(old(pages), PageId, id);
        k.Some? ==> pages == RemoveAt(old(pages), k.value)
    {
      var index := IndexOf(pages, PageId, id);
      if index.None? {
        return false;
      }
      pages := RemoveAt(pages, index.value);
      existed := true;
    }
  }

  /**
   * Slugs are never checked: creating a page whose slug is taken leaves the
   * older page as the one a slug lookup finds.
   */
  lemma DuplicateSlugShadowed(pages: seq<Page>, page: Page)
    requires IndexOfSlug(pages, page.slug).Some?
    ensures IndexOfSlug(pages + [page.(id := NextId(pages, PageId))], page.slug) == IndexOfSlug(pages, page.slug)
  {
    var t := pages + [page.(id := NextId(pages, PageId))];
    var i := IndexOfSlug(pages, page.slug).value;
    forall j | 0 <= j <= i ensures t[j] == pages[j] {
    }
    assert IndexOfSlug(t, page.slug).Some?;
  }

  /** A created page is what a lookup of its id finds. */
  lemma CreateThenGetPage(pages: seq<Page>, page: Page)
    ensures var p := page.(id := NextId(pages, PageId));
      Find(pages + [p], PageId, p.id) == Some(p)
  {
    AppendFreshThenFind(pages, PageId, page.(id := NextId(pages, PageId)));
  }
}
