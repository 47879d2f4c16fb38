/**
 * The custom button list of the admin area: deleting a button from the
 * locally stored list, and the labels each row shows (the page name, the
 * type label and the badge colour).
 */
module CustomButtonsSection {
  import opened Wrappers
  import opened Schema
  import opened IdList
  import CustomButtonModal

  const PageNotFound: string := "Página não encontrada"

  /**
   * confirmDelete: with a button selected, keep exactly the buttons whose id
   * differs from it, in their order; with none selected, nothing changes.
   */
  function AfterDelete(buttons: seq<CustomButton>, current: Option<CustomButton>): (r: seq<CustomButton>)
    ensures current.None? ==> r == buttons
    ensures current.Some? ==> forall i :: 0 <= i < |r| ==> r[i] in buttons && r[i].id != current.value.id
    ensures current.Some? ==> forall i :: 0 <= i < |buttons| && buttons[i].id != current.value.id ==> buttons[i] in r
  {
    match current
    case None => buttons
    case Some(b) => WithoutKey(buttons, ButtonId, b.id)
  }

  /**
   * With unique ids, deleting through the filter removes the same single
   * entry the server's splice removes (or nothing, for an unknown id).
   */
  lemma DeleteAgreesWithSplice(buttons: seq<CustomButton>, b: CustomButton)
    requires UniqueKeys(buttons, ButtonId)
    ensures AfterDelete(buttons, Some(b)) ==
      match IndexOf(buttons, ButtonId, b.id)
      case None => buttons
      case Some(i) => RemoveAt(buttons, i)
  {
    WithoutKeyIsRemoveFirst(buttons, ButtonId, b.id);
  }

  /** confirmDelete writes the filtered list back to local storage. */
  method ConfirmDelete(store: CustomButtonModal.ButtonStore, current: Option<CustomButton>)
    modifies store
    ensures store.buttons == AfterDelete(old(store.buttons), current)
  {
    if current.Some? {
      var updated := WithoutKey(store.buttons, ButtonId, current.value.id);
      store.buttons := updated;
    }
  }

  /** `pages.find(p => p.slug === slug)`. */
  function FirstWithSlug(pages: seq<Page>, slug: string): (r: Option<Page>)
    ensures r.Some? ==> r.value in pages && r.value.slug == slug
    ensures r.Some? ==> exists i :: 0 <= i < |pages| && pages[i] == r.value && forall j :: 0 <= j < i ==> pages[j].slug != slug
    ensures r.None? <==> forall i :: 0 <= i < |pages| ==> pages[i].slug != slug
  {
    if pages == [] then None
    else if pages[0].slug == slug then Some(pages[0])
    else
      var r := FirstWithSlug(pages[1..], slug);
      assert forall j :: 1 <= j < |pages| ==> pages[j] == pages[1..][j - 1];
      r
  }

  /**
   * The page column: the title of the first page with the button's slug,
   * or "Página não encontrada" when there is none or its title is empty.
   */
  function PageName(pages: seq<Page>, button: CustomButton): (r: string)
    ensures r != ""
    ensures r != PageNotFound ==> exists i :: 0 <= i < |pages| && pages[i].slug == button.pageSlug && pages[i].title == r
    ensures (forall i :: 0 <= i < |pages| ==> pages[i].slug != button.pageSlug) ==> r == PageNotFound
    ensures FirstWithSlug(pages, button.pageSlug).Some? && FirstWithSlug(pages, button.pageSlug).value.title != "" ==>
      r == FirstWithSlug(pages, button.pageSlug).value.title
    ensures FirstWithSlug(pages, button.pageSlug).None? || FirstWithSlug(pages, button.pageSlug).value.title == "" ==>
      r == PageNotFound
  {
    match FirstWithSlug(pages, button.pageSlug)
    case Some(p) => if p.title != "" then p.title else PageNotFound
    case None => PageNotFound
  }

  /** The type column: internal is "Página", iframe "iFrame", everything else (email included) "Externo". */
  function TypeLabel(linkType: string): (r: string)
    ensures r == "Página" <==> linkType == Internal
    ensures r == "iFrame" <==> linkType == Iframe
    ensures r == "Externo" <==> linkType != Internal && linkType != Iframe
  {
    if linkType == Internal then "Página" else if linkType == Iframe then "iFrame" else "Externo"
  }

  datatype BadgeColour = Blue | Purple | Green

  /** The badge colour, chosen by the same tests as the label. */
  function Badge(linkType: string): (r: BadgeColour)
    ensures r == Blue <==> TypeLabel(linkType) == "Página"
    ensures r == Purple <==> TypeLabel(linkType) == "iFrame"
    ensures r == Green <==> TypeLabel(linkType) == "Externo"
  {
    if linkType == Internal then Blue else if linkType == Iframe then Purple else Green
  }
}
