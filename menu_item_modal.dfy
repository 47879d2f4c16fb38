/**
 * The menu item dialog of the admin area: its form, the radio choice of
 * link type with the "open in iframe" box, the validation the form runs
 * before submitting, and the request body it sends to create or update an
 * item.
 */
module MenuItemModal {
  import opened Wrappers
  import opened Schema
  import Storage

  /** The form. `None` is null, `Some("")` an empty input. */
  datatype MenuFormValues = MenuFormValues(
    text: string,
    linkType: string,
    internalLink: Option<string>,
    externalUrl: Option<string>,
    openInIframe: bool)

  /** The request the dialog sends: POST /api/menu, or PUT /api/menu/{id}. */
  datatype MenuRequest =
    | Post(input: MenuItemInput)
    | Put(id: int, patch: MenuItemPatch)

  /** The link types the form's schema accepts. */
  predicate FormType(t: string) {
    t == Internal || t == External || t == Iframe
  }

  predicate AsciiLetter(c: char) {
    ('a' <= c <= 'z') || ('A' <= c <= 'Z')
  }

  /** A character allowed after the first one of a URL scheme. */
  predicate SchemeChar(c: char) {
    AsciiLetter(c) || ('0' <= c <= '9') || c == '+' || c == '-' || c == '.'
  }

  /**
   * What the URL check demands of the model: a scheme (a letter, then
   * letters, digits, '+', '-' or '.') followed by ':'.
   */
  predicate UrlShaped(s: string) {
    exists i :: 1 <= i < |s| && s[i] == ':' && AsciiLetter(s[0]) && (forall j :: 1 <= j < i ==> SchemeChar(s[j]))
  }

  /** The empty string is not a URL. */
  lemma EmptyIsNotUrl()
    ensures !UrlShaped("")
  {
  }

  /** The form a new item starts from. */
  function CreateDefaults(): MenuFormValues {
    MenuFormValues("", Internal, Some(""), Some(""), false)
  }

  /** The form an edit starts from: the stored fields, with the box ticked exactly for iframe items. */
  function EditForm(item: MenuItem): (f: MenuFormValues)
    ensures f.openInIframe <==> item.linkType == Iframe
    ensures f.text == item.text && f.linkType == item.linkType
    ensures f.internalLink == item.internalLink && f.externalUrl == item.externalUrl
  {
    MenuFormValues(item.text, item.linkType, item.internalLink, item.externalUrl, item.linkType == Iframe)
  }

  /** The radio tab shown for a link type: iframe items show under "external". */
  function TabFor(linkType: string): (tab: string)
    ensures tab != Iframe
    ensures linkType != Iframe ==> tab == linkType
  {
    if linkType == Iframe then External else linkType
  }

  // ---------------------------------------------------------------------
  // Validation
  // ---------------------------------------------------------------------

  /**
   * The schema check as written: a non-empty text, a known type, and an
   * externalUrl that is null or a URL, whatever the type.
   */
  predicate SubmitsAsWritten(f: MenuFormValues)
    ensures f.externalUrl == Some("") ==> !SubmitsAsWritten(f)
    ensures SubmitsAsWritten(f) ==> f.text != "" && FormType(f.linkType)
  {
    f.text != "" && FormType(f.linkType) &&
    (f.externalUrl.None? || UrlShaped(f.externalUrl.value))
  }

  /**
   * The check as intended: the URL is checked only for the types that send
   * it; an internal item's hidden URL input is dropped anyway.
   */
  predicate Submits(f: MenuFormValues)
    ensures f.linkType == Internal ==> (Submits(f) <==> f.text != "")
    ensures f.linkType != Internal && f.externalUrl == Some("") ==> !Submits(f)
  {
    f.text != "" && FormType(f.linkType) &&
    (f.linkType == Internal || f.externalUrl.None? || UrlShaped(f.externalUrl.value))
  }

  /**
   * As written, a form whose hidden URL input holds "" never submits. Both
   * the new-item form and a switch to the internal tab leave "" there, so
   * a new internal item can never be sent.
   */
  lemma NewInternalItemBlocked(text: string, slug: string)
    requires text != ""
    ensures var f := CreateDefaults().(text := text, internalLink := Some(slug));
      !SubmitsAsWritten(f) && Submits(f)
  {
    EmptyIsNotUrl();
  }

  /** The intended check accepts everything the written one does, and differs only on internal items. */
  lemma SubmitsWeakensOnlyInternal(f: MenuFormValues)
    ensures SubmitsAsWritten(f) ==> Submits(f)
    ensures f.linkType != Internal ==> (Submits(f) <==> SubmitsAsWritten(f))
  {
  }

  // ---------------------------------------------------------------------
  // The request body
  // ---------------------------------------------------------------------

  /**
   * The type sent, as written: the form's type, promoted to iframe only
   * when it is "external" and the box is ticked. A form opened on an iframe
   * item keeps type "iframe" whatever the box says.
   */
  function PayloadType(f: MenuFormValues): (t: string)
    ensures t == Iframe <==> f.linkType == Iframe || (f.linkType == External && f.openInIframe)
    ensures t != Iframe ==> t == f.linkType
  {
    if f.linkType == External && f.openInIframe then Iframe else f.linkType
  }

  /**
   * The type sent, as intended: under the external tab the box alone decides
   * between iframe and external; an internal item stays internal.
   */
  function IntendedType(f: MenuFormValues): (t: string)
    requires FormType(f.linkType)
    ensures t == Internal <==> f.linkType == Internal
    ensures t == Iframe <==> f.linkType != Internal && f.openInIframe
    ensures t == External <==> f.linkType != Internal && !f.openInIframe
  {
    if f.linkType == Internal then Internal
    else if f.openInIframe then Iframe
    else External
  }

  /**
   * The two agree except on a form of type "iframe" whose box was cleared;
   * in particular they agree on every form a new item can reach.
   */
  lemma IntendedAgreesOutsideUncheck(f: MenuFormValues)
    requires FormType(f.linkType)
    ensures PayloadType(f) != IntendedType(f) <==> f.linkType == Iframe && !f.openInIframe
  {
  }

  /**
   * Opening an iframe item and clearing "open in iframe" still sends type
   * "iframe" as written; the intended type is "external".
   */
  lemma UncheckKeepsIframe(item: MenuItem)
    requires item.linkType == Iframe
    ensures var f := EditForm(item).(openInIframe := false);
      TabFor(item.linkType) == External && PayloadType(f) == Iframe && IntendedType(f) == External
  {
  }

  /**
   * The body of POST /api/menu: the next order after the loaded items, the
   * type as written (see PayloadType), the link of internal items only, the
   * URL of the other types only.
   */
  function CreatePayload(f: MenuFormValues, loadedCount: nat): (r: MenuItemInput)
    requires FormType(f.linkType)
    ensures r.text == f.text && r.order == loadedCount + 1
    ensures r.linkType == PayloadType(f)
    ensures r.linkType == Internal ==> r.internalLink == f.internalLink && r.externalUrl.None?
    ensures r.linkType != Internal ==> r.internalLink.None? && r.externalUrl == f.externalUrl
  {
    MenuItemInput(
      f.text,
      loadedCount + 1,
      PayloadType(f),
      if f.linkType == Internal then f.internalLink else None,
      if f.linkType != Internal then f.externalUrl else None)
  }

  /**
   * The body of PUT /api/menu/{id}: the same fields without an order, the
   * type as written (see PayloadType), the target of the other kind sent as
   * an explicit null.
   */
  function UpdatePayload(f: MenuFormValues): (r: MenuItemPatch)
    requires FormType(f.linkType)
    ensures r.id.None? && r.order.None?
    ensures r.text == Some(f.text) && r.linkType == Some(PayloadType(f))
    ensures r.internalLink.Some? && r.externalUrl.Some?
    ensures f.linkType == Internal ==> r.internalLink == Some(f.internalLink) && r.externalUrl == Some(None)
    ensures f.linkType != Internal ==> r.internalLink == Some(None) && r.externalUrl == Some(f.externalUrl)
  {
    MenuItemPatch(
      None,
      Some(f.text),
      None,
      Some(PayloadType(f)),
      Some(if f.linkType == Internal then f.internalLink else None),
      Some(if f.linkType != Internal then f.externalUrl else None))
  }

  /** A stored item whose only target is the one its type uses. */
  predicate TargetsShaped(item: MenuItem) {
    FormType(item.linkType) &&
    (item.linkType == Internal ==> item.externalUrl.None?) &&
    (item.linkType != Internal ==> item.internalLink.None?)
  }

  /**
   * Saving an edit without touching the form writes the stored item back
   * unchanged, on either server update, provided the item has the shape
   * the dialog itself saves.
   */
  lemma ResubmitUnchanged(item: MenuItem)
    requires TargetsShaped(item)
    ensures var patch := UpdatePayload(EditForm(item));
      Storage.MergeMenuFields(item, patch) == item && OverlayMenuItem(item, patch) == item
  {
    var f := EditForm(item);
    assert PayloadType(f) == item.linkType;
  }

  /** Every item saved through the dialog has the shape the dialog edits back unchanged. */
  lemma SavedItemsShaped(f: MenuFormValues, base: MenuItem, loadedCount: nat)
    requires FormType(f.linkType)
    ensures var c := CreatePayload(f, loadedCount);
      TargetsShaped(MenuItem(base.id, c.text, c.order, c.linkType, c.internalLink, c.externalUrl))
    ensures TargetsShaped(Storage.MergeMenuFields(base, UpdatePayload(f)))
  {
  }

  /** The dialog's form state and the radio tab. */
  class MenuItemForm {
    var values: MenuFormValues
    var tab: string

    /** The radio tab matches the form's type, and the type is one the schema knows. */
    predicate Consistent()
      reads this
    {
      FormType(values.linkType) && tab == TabFor(values.linkType)
    }

    constructor ()
      ensures values == CreateDefaults() && tab == Internal
      ensures Consistent()
    {
      values := CreateDefaults();
      tab := Internal;
    }

    /** Opening the dialog: an edit starts from the stored item, a new item from the defaults. */
    method Open(item: Option<MenuItem>)
      modifies this
      ensures item.Some? ==> values == EditForm(item.value) && tab == TabFor(item.value.linkType)
      ensures item.None? ==> values == CreateDefaults() && tab == Internal
      ensures item.None? || FormType(item.value.linkType) ==> Consistent()
    {
      if item.Some? {
        values := EditForm(item.value);
        tab := TabFor(item.value.linkType);
      } else {
        values := CreateDefaults();
        tab := Internal;
      }
    }

    /**
     * handleLinkTypeChange, for the two radio values: the tab and the type
     * follow the choice; choosing internal empties the URL and clears the
     * box, choosing external empties the page link.
     */
    method ChangeLinkType(value: string)
      requires value == Internal || value == External
      modifies this
      ensures tab == value && values.linkType == value && Consistent()
      ensures value == Internal ==>
        values == old(values).(linkType := Internal, externalUrl := Some(""), openInIframe := false)
      ensures value == External ==>
        values == old(values).(linkType := External, internalLink := Some(""))
    {
      tab := value;
      values := values.(linkType := value);
      if value == Internal {
        values := values.(externalUrl := Some(""), openInIframe := false);
      } else {
        values := values.(internalLink := Some(""));
      }
    }

    /** The "open in iframe" box, which is shown under the external tab only. */
    method SetOpenInIframe(checked: bool)
      requires tab == External
      modifies this
      ensures values == old(values).(openInIframe := checked) && tab == old(tab)
    {
      values := values.(openInIframe := checked);
    }

    /**
     * onSubmit, behind the schema check as written: nothing is sent when the
     * check fails; otherwise an edit sends the update of the edited id and a
     * new item the create body.
     */
    method Submit(editing: Option<MenuItem>, loadedCount: nat) returns (r: Option<MenuRequest>)
      ensures r.None? <==> !SubmitsAsWritten(values)
      ensures r.Some? && editing.Some? ==> r == Some(Put(editing.value.id, UpdatePayload(values)))
      ensures r.Some? && editing.None? ==> r == Some(Post(CreatePayload(values, loadedCount)))
    {
      if !SubmitsAsWritten(values) {
        return None;
      }
      if editing.Some? {
        r := Some(Put(editing.value.id, UpdatePayload(values)));
      } else {
        r := Some(Post(CreatePayload(values, loadedCount)));
      }
    }
  }
}
