/**
 * The custom button dialog of the admin area: the form state, the switch
 * of link type, the url a button gets from its type and target, the shape
 * of the saved record, and the edit / create updates of the button list the
 * browser keeps under the local storage key "customButtons".
 */
module CustomButtonModal {
  import opened Wrappers
  import opened Schema
  import opened Text
  import Uri

  /**
   * The dialog's form. The nullable inputs are `Option`s: `None` is null or
   * left out, `Some("")` an empty input.
   */
  datatype ButtonFormValues = ButtonFormValues(
    text: string,
    linkType: string,
    internalLink: Option<string>,
    externalUrl: Option<string>,
    email: Option<string>,
    pageSlug: string,
    style: string,
    size: string,
    openInNewTab: bool)

  /** JavaScript truthiness of a nullable string: present and not empty. */
  predicate Truthy(v: Option<string>) {
    v.Some? && v.value != ""
  }

  /** The target field that belongs to a link type. */
  function TargetFor(linkType: string, internalLink: Option<string>, externalUrl: Option<string>, email: Option<string>): Option<string> {
    if linkType == Internal then internalLink
    else if linkType == External || linkType == Iframe then externalUrl
    else if linkType == Email then email
    else None
  }

  predicate KnownType(linkType: string) {
    linkType == Internal || linkType == External || linkType == Iframe || linkType == Email
  }

  /** Reads the target back out of a derived url. */
  function TargetFromUrl(linkType: string, url: string): Option<string> {
    if linkType == Internal then (if StartsWith(url, "/") then Some(url[1..]) else None)
    else if linkType == External then Some(url)
    else if linkType == Iframe then (if StartsWith(url, "/iframe?url=") then Uri.Decode(url[12..]) else None)
    else if linkType == Email then (if StartsWith(url, "mailto:") then Some(url[7..]) else None)
    else None
  }

  /**
   * The url saveButton derives: "/" + internalLink, the externalUrl itself,
   * "/iframe?url=" + the encoded externalUrl, or "mailto:" + email, each
   * only when the type's own target is a non-empty string; "" otherwise.
   * The target can always be read back from the url.
   */
  function ButtonUrl(linkType: string, internalLink: Option<string>, externalUrl: Option<string>, email: Option<string>): (r: string)
    ensures r == "" <==> !(KnownType(linkType) && Truthy(TargetFor(linkType, internalLink, externalUrl, email)))
    ensures KnownType(linkType) && Truthy(TargetFor(linkType, internalLink, externalUrl, email)) ==>
      TargetFromUrl(linkType, r) == TargetFor(linkType, internalLink, externalUrl, email)
  {
    if linkType == Internal && Truthy(internalLink) then
      StartsWithConcat("/", internalLink.value);
      "/" + internalLink.value
    else if linkType == External && Truthy(externalUrl) then externalUrl.value
    else if linkType == Iframe && Truthy(externalUrl) then
      StartsWithConcat("/iframe?url=", Uri.Encode(externalUrl.value));
      Uri.DecodeEncode(externalUrl.value);
      "/iframe?url=" + Uri.Encode(externalUrl.value)
    else if linkType == Email && Truthy(email) then
      StartsWithConcat("mailto:", email.value);
      "mailto:" + email.value
    else ""
  }

  /** The form's url. */
  function FormUrl(f: ButtonFormValues): string {
    ButtonUrl(f.linkType, f.internalLink, f.externalUrl, f.email)
  }

  /** At most one target field is set, and it is the one the type uses. */
  predicate TargetsShaped(b: CustomButton) {
    (b.linkType != Internal ==> b.internalLink.None?) &&
    (b.linkType != External && b.linkType != Iframe ==> b.externalUrl.None?) &&
    (b.linkType != Email ==> b.email.None?)
  }

  /** The stored url is the one its own type and targets derive. */
  predicate UrlConsistent(b: CustomButton) {
    b.url == ButtonUrl(b.linkType, b.internalLink, b.externalUrl, b.email)
  }

  /**
   * The record saveButton writes over `base` (the stored entry when
   * editing): the form's fields, its derived url, and only the target
   * field the type uses; id, createdAt and anything else of `base` stay.
   */
  function Shaped(base: CustomButton, f: ButtonFormValues): (r: CustomButton)
    ensures r.id == base.id && r.createdAt == base.createdAt
    ensures TargetsShaped(r) && UrlConsistent(r)
    ensures r.linkType == f.linkType && r.text == f.text && r.pageSlug == f.pageSlug
    ensures r.style == f.style && r.size == f.size && r.openInNewTab == Some(f.openInNewTab)
    ensures TargetFor(r.linkType, r.internalLink, r.externalUrl, r.email) ==
            TargetFor(f.linkType, f.internalLink, f.externalUrl, f.email)
  {
    base.(
      text := f.text,
      linkType := f.linkType,
      url := FormUrl(f),
      internalLink := if f.linkType == Internal then f.internalLink else None,
      externalUrl := if f.linkType == External || f.linkType == Iframe then f.externalUrl else None,
      email := if f.linkType == Email then f.email else None,
      pageSlug := f.pageSlug,
      style := f.style,
      size := f.size,
      openInNewTab := Some(f.openInNewTab))
  }

  /** The new record of create mode: the id is the clock reading, and there is no createdAt. */
  function NewButton(now: int, f: ButtonFormValues): (r: CustomButton)
    ensures r.id == now && r.createdAt.None?
    ensures TargetsShaped(r) && UrlConsistent(r)
    ensures r.linkType == f.linkType && r.text == f.text && r.pageSlug == f.pageSlug
    ensures r.style == f.style && r.size == f.size && r.openInNewTab == Some(f.openInNewTab)
  {
    Shaped(CustomButton(now, "", "", "", None, None, None, "", "", "", None, None), f)
  }

  /** Edit mode: every entry whose id is the edited one is reshaped, every other entry stays in place. */
  function EditAll(buttons: seq<CustomButton>, editedId: int, f: ButtonFormValues): (r: seq<CustomButton>)
    ensures |r| == |buttons|
    ensures forall i :: 0 <= i < |buttons| && buttons[i].id == editedId ==> r[i] == Shaped(buttons[i], f)
    ensures forall i :: 0 <= i < |buttons| && buttons[i].id != editedId ==> r[i] == buttons[i]
    ensures forall i :: 0 <= i < |buttons| ==> r[i].id == buttons[i].id
  {
    if buttons == [] then []
    else [if buttons[0].id == editedId then Shaped(buttons[0], f) else buttons[0]] + EditAll(buttons[1..], editedId, f)
  }

  /**
   * The form an edit starts from: the stored fields, with style and size
   * falling back to their defaults when empty and openInNewTab true unless
   * stored as false.
   */
  function EditDefaults(b: CustomButton): (f: ButtonFormValues)
    ensures f.style == (if b.style != "" then b.style else DefaultStyle)
    ensures f.size == (if b.size != "" then b.size else DefaultSize)
    ensures f.style != "" && f.size != ""
    ensures f.text == b.text && f.pageSlug == b.pageSlug
    ensures f.openInNewTab <==> b.openInNewTab != Some(false)
    ensures f.linkType == b.linkType && f.internalLink == b.internalLink
    ensures f.externalUrl == b.externalUrl && f.email == b.email
  {
    ButtonFormValues(
      b.text, b.linkType, b.internalLink, b.externalUrl, b.email, b.pageSlug,
      if b.style != "" then b.style else DefaultStyle,
      if b.size != "" then b.size else DefaultSize,
      b.openInNewTab != Some(false))
  }

  /** The form a new button starts from. */
  function CreateDefaults(): ButtonFormValues {
    ButtonFormValues("", Internal, Some(""), Some(""), Some(""), "", DefaultStyle, DefaultSize, DefaultOpenInNewTab)
  }

  /**
   * Saving an edit without touching the form gives back the stored record,
   * when that record already has the saved shape.
   */
  lemma ResubmitUnchanged(b: CustomButton)
    requires TargetsShaped(b) && UrlConsistent(b)
    requires b.style != "" && b.size != "" && b.openInNewTab.Some?
    ensures Shaped(b, EditDefaults(b)) == b
  {
    var f := EditDefaults(b);
    var r := Shaped(b, f);
    assert r.url == b.url;
    assert r.internalLink == b.internalLink && r.externalUrl == b.externalUrl && r.email == b.email;
    assert r.style == b.style && r.size == b.size;
    if b.openInNewTab.value {
      assert b.openInNewTab == Some(true);
      assert f.openInNewTab;
    } else {
      assert b.openInNewTab == Some(false);
      assert !f.openInNewTab;
    }
    assert r.openInNewTab == b.openInNewTab;
    assert r.text == b.text && r.linkType == b.linkType && r.pageSlug == b.pageSlug;
    assert r.id == b.id && r.createdAt == b.createdAt;
  }

  /** The dialog's form state and its link-type tab. */
  class ButtonForm {
    var values: ButtonFormValues
    var tab: string

    constructor ()
      ensures values == CreateDefaults() && tab == Internal
    {
      values := CreateDefaults();
      tab := Internal;
    }

    /**
     * Opening the dialog: an edit starts from the stored record, a new
     * button from the defaults; the tab follows a known stored type.
     */
    method Open(button: Option<CustomButton>)
      modifies this
      ensures button.Some? ==> values == EditDefaults(button.value)
      ensures button.Some? ==> tab == if KnownType(button.value.linkType) then button.value.linkType else old(tab)
      ensures button.None? ==> values == CreateDefaults() && tab == Internal
    {
      if button.Some? {
        values := EditDefaults(button.value);
        var t := button.value.linkType;
        if t == Internal {
          tab := Internal;
        } else if t == External {
          tab := External;
        } else if t == Iframe {
          tab := Iframe;
        } else if t == Email {
          tab := Email;
        }
      } else {
        values := CreateDefaults();
        tab := Internal;
      }
    }

    /**
     * handleLinkTypeChange: the tab follows the choice; for a known type the
     * form's type is set and the target fields of the other types are
     * cleared, the type's own field is left alone.
     */
    method ChangeLinkType(value: string)
      modifies this
      ensures tab == value
      ensures KnownType(value) ==> values.linkType == value
      ensures KnownType(value) ==>
        TargetFor(value, values.internalLink, values.externalUrl, values.email) ==
        TargetFor(value, old(values).internalLink, old(values).externalUrl, old(values).email)
      ensures KnownType(value) ==>
        values == old(values).(linkType := value,
                               internalLink := if value == Internal then old(values).internalLink else None,
                               externalUrl := if value == External || value == Iframe then old(values).externalUrl else None,
                               email := if value == Email then old(values).email else None)
      ensures !KnownType(value) ==> values == old(values)
    {
      tab := value;
      if value == Internal {
        values := values.(linkType := Internal);
        values := values.(externalUrl := None);
        values := values.(email := None);
      } else if value == External {
        values := values.(linkType := External);
        values := values.(internalLink := None);
        values := values.(email := None);
      } else if value == Iframe {
        values := values.(linkType := Iframe);
        values := values.(internalLink := None);
        values := values.(email := None);
      } else if value == Email {
        values := values.(linkType := Email);
        values := values.(internalLink := None);
        values := values.(externalUrl := None);
      }
    }
  }

  /** The button list kept in local storage under "customButtons". */
  class ButtonStore {
    var buttons: seq<CustomButton>

    /** A missing entry reads as the empty list. */
    constructor (stored: Option<seq<CustomButton>>)
      ensures buttons == if stored.Some? then stored.value else []
    {
      buttons := if stored.Some? then stored.value else [];
    }

    /**
     * saveButton: when editing, every entry with the edited button's id is
     * reshaped in place; otherwise one new entry, id `now`, is appended.
     */
    method SaveButton(f: ButtonFormValues, editing: Option<CustomButton>, now: int)
      modifies this
      ensures editing.Some? ==> buttons == EditAll(old(buttons), editing.value.id, f)
      ensures editing.None? ==> buttons == old(buttons) + [NewButton(now, f)]
    {
      if editing.Some? {
        buttons := EditAll(buttons, editing.value.id, f);
      } else {
        var newButton := NewButton(now, f);
        buttons := buttons + [newButton];
      }
    }
  }
}
