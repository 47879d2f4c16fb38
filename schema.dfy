/**
 * The records of the content-management data layer: pages, menu items,
 * custom buttons and settings, with the defaults of the table definitions.
 * Field `type` of the source is called `linkType` here (`type` is a Dafny keyword);
 * it is free text in the table definition, so it stays a string.
 * Nullable columns are `Option`s; `None` stands for SQL NULL / JavaScript null.
 */
module Schema {
  import opened Wrappers

  /** Milliseconds since the epoch; clocks are parameters of the model. */
  type Timestamp = int

  const Internal: string := "internal"
  const External: string := "external"
  const Iframe: string := "iframe"
  const Email: string := "email"

  /** Column defaults of custom_buttons. */
  const DefaultStyle: string := "primary"
  const DefaultSize: string := "default"
  const DefaultOpenInNewTab: bool := true

  /** A page. The timestamps are absent on the file-backed default pages. */
  datatype Page = Page(
    id: int,
    title: string,
    slug: string,
    content: string,
    createdAt: Option<Timestamp>,
    updatedAt: Option<Timestamp>)

  /** InsertPage: the fields a caller supplies when creating a page. */
  datatype PageInput = PageInput(title: string, slug: string, content: string)

  /** Partial<Page>: every key may be left out (`None`). */
  datatype PagePatch = PagePatch(
    id: Option<int>,
    title: Option<string>,
    slug: Option<string>,
    content: Option<string>,
    createdAt: Option<Timestamp>,
    updatedAt: Option<Timestamp>)

  /** A Partial<InsertPage>: only title, slug and content can be supplied. */
  predicate IsInsertPagePatch(patch: PagePatch) {
    patch.id.None? && patch.createdAt.None? && patch.updatedAt.None?
  }

  /** `{ ...p, ...patch }`: each key the patch carries replaces the stored one. */
  function OverlayPage(p: Page, patch: PagePatch): Page {
    Page(
      patch.id.GetOr(p.id),
      patch.title.GetOr(p.title),
      patch.slug.GetOr(p.slug),
      patch.content.GetOr(p.content),
      if patch.createdAt.Some? then patch.createdAt else p.createdAt,
      if patch.updatedAt.Some? then patch.updatedAt else p.updatedAt)
  }

  /** A menu item. `internalLink` is a page slug, `externalUrl` a URL. */
  datatype MenuItem = MenuItem(
    id: int,
    text: string,
    order: int,
    linkType: string,
    internalLink: Option<string>,
    externalUrl: Option<string>)

  /** InsertMenuItem: what a caller supplies when creating a menu item. */
  datatype MenuItemInput = MenuItemInput(
    text: string,
    order: int,
    linkType: string,
    internalLink: Option<string>,
    externalUrl: Option<string>)

  /** Partial<MenuItem>. For the nullable keys, `Some(None)` is an explicit null. */
  datatype MenuItemPatch = MenuItemPatch(
    id: Option<int>,
    text: Option<string>,
    order: Option<int>,
    linkType: Option<string>,
    internalLink: Option<Option<string>>,
    externalUrl: Option<Option<string>>)

  /** `{ ...m, ...patch }` for menu items. */
  function OverlayMenuItem(m: MenuItem, patch: MenuItemPatch): MenuItem {
    MenuItem(
      patch.id.GetOr(m.id),
      patch.text.GetOr(m.text),
      patch.order.GetOr(m.order),
      patch.linkType.GetOr(m.linkType),
      patch.internalLink.GetOr(m.internalLink),
      patch.externalUrl.GetOr(m.externalUrl))
  }

  /** A custom button, shown on the page whose slug is `pageSlug`. */
  datatype CustomButton = CustomButton(
    id: int,
    text: string,
    linkType: string,
    url: string,
    internalLink: Option<string>,
    externalUrl: Option<string>,
    email: Option<string>,
    pageSlug: string,
    style: string,
    size: string,
    openInNewTab: Option<bool>,
    createdAt: Option<Timestamp>)

  /** Partial<CustomButton>. */
  datatype CustomButtonPatch = CustomButtonPatch(
    id: Option<int>,
    text: Option<string>,
    linkType: Option<string>,
    url: Option<string>,
    internalLink: Option<Option<string>>,
    externalUrl: Option<Option<string>>,
    email: Option<Option<string>>,
    pageSlug: Option<string>,
    style: Option<string>,
    size: Option<string>,
    openInNewTab: Option<Option<bool>>,
    createdAt: Option<Option<Timestamp>>)

  /** `{ ...b, ...patch }` for custom buttons: nothing is recomputed. */
  function OverlayButton(b: CustomButton, patch: CustomButtonPatch): CustomButton {
    CustomButton(
      patch.id.GetOr(b.id),
      patch.text.GetOr(b.text),
      patch.linkType.GetOr(b.linkType),
      patch.url.GetOr(b.url),
      patch.internalLink.GetOr(b.internalLink),
      patch.externalUrl.GetOr(b.externalUrl),
      patch.email.GetOr(b.email),
      patch.pageSlug.GetOr(b.pageSlug),
      patch.style.GetOr(b.style),
      patch.size.GetOr(b.size),
      patch.openInNewTab.GetOr(b.openInNewTab),
      patch.createdAt.GetOr(b.createdAt))
  }

  /** A site setting; `value` is the JSON text of the stored value. */
  datatype Setting = Setting(id: int, name: string, value: string)

  datatype SettingInput = SettingInput(name: string, value: string)

  function PageId(p: Page): int { p.id }
  function MenuItemId(m: MenuItem): int { m.id }
  function ButtonId(b: CustomButton): int { b.id }
}
