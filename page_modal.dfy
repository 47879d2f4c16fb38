/**
 * The page dialog of the admin area: the slug derived from a title, the
 * automatic slug while the title is typed, the form check, and the requests
 * sent to create a page (optionally with a menu item for it) or to update one.
 */
module PageModal {
  import opened Wrappers
  import opened Schema

  // ---------------------------------------------------------------------
  // Slugs
  // ---------------------------------------------------------------------

  /** The characters of the regular expression class `\s`. */
  predicate IsSpace(c: char) {
    c == '\t' || c == '\n' || c == '\U{0B}' || c == '\U{0C}' || c == '\r' || c == ' ' ||
    c == '\U{A0}' || c == '\U{1680}' || ('\U{2000}' <= c <= '\U{200A}') ||
    c == '\U{2028}' || c == '\U{2029}' || c == '\U{202F}' || c == '\U{205F}' ||
    c == '\U{3000}' || c == '\U{FEFF}'
  }

  /** The characters a slug may hold: `[a-z0-9-]`. */
  predicate SlugChar(c: char) {
    ('a' <= c <= 'z') || ('0' <= c <= '9') || c == '-'
  }

  /**
   * toLowerCase, as far as the slug can tell: A-Z become a-z, the Kelvin
   * sign becomes 'k' and the dotted capital I becomes 'i' (its combining dot
   * is dropped by the final filter). Every other character either keeps its
   * case or lowers to a character the filter drops anyway.
   */
  function Lower(c: char): (r: char)
    ensures SlugChar(c) ==> r == c
    ensures IsSpace(r) <==> IsSpace(c)
  {
    if 'A' <= c <= 'Z' then (c as int + 32) as char
    else if c == '\U{212A}' then 'k'
    else if c == '\U{130}' then 'i'
    else c
  }

  function LowerAll(s: string): (r: string)
    ensures |r| == |s|
    ensures forall i :: 0 <= i < |s| ==> r[i] == Lower(s[i])
  {
    if s == [] then [] else [Lower(s[0])] + LowerAll(s[1..])
  }

  /** The string without its leading whitespace. */
  function DropSpaces(s: string): (r: string)
    ensures |r| <= |s|
    ensures r == [] || !IsSpace(r[0])
  {
    if s != [] && IsSpace(s[0]) then DropSpaces(s[1..]) else s
  }

  /** `replace(/\s+/g, '-')`: every run of whitespace becomes one '-'. */
  function Dashed(s: string): (r: string)
    ensures forall i :: 0 <= i < |r| ==> !IsSpace(r[i])
    ensures |r| <= |s|
    decreases |s|
  {
    if s == [] then []
    else if IsSpace(s[0]) then "-" + Dashed(DropSpaces(s[1..]))
    else [s[0]] + Dashed(s[1..])
  }

  /** `replace(/[^a-z0-9-]/g, '')`. */
  function KeepSlugChars(s: string): (r: string)
    ensures |r| <= |s|
  {
    if s == [] then []
    else if SlugChar(s[0]) then [s[0]] + KeepSlugChars(s[1..])
    else KeepSlugChars(s[1..])
  }

  /** The slug of a title: never longer than the title. */
  function Slugify(title: string): (r: string)
    ensures |r| <= |title|
  {
    KeepSlugChars(Dashed(LowerAll(title)))
  }

  predicate AllSlugChars(s: string) {
    forall i :: 0 <= i < |s| ==> SlugChar(s[i])
  }

  /** The filter leaves only slug characters, and leaves a string of them alone. */
  lemma {:induction false} KeepSlugCharsShape(s: string)
    ensures AllSlugChars(KeepSlugChars(s))
    ensures AllSlugChars(s) ==> KeepSlugChars(s) == s
  {
    if s != [] {
      KeepSlugCharsShape(s[1..]);
      if AllSlugChars(s) {
        assert AllSlugChars(s[1..]) by {
          forall i | 0 <= i < |s[1..]| ensures SlugChar(s[1..][i]) {
            assert s[1..][i] == s[i + 1];
          }
        }
        assert s == [s[0]] + s[1..];
      }
    }
  }

  /** A string without whitespace is left alone by the dash replacement. */
  lemma {:induction false} DashedNoSpace(s: string)
    requires forall i :: 0 <= i < |s| ==> !IsSpace(s[i])
    ensures Dashed(s) == s
  {
    if s != [] {
      assert forall i :: 0 <= i < |s[1..]| ==> !IsSpace(s[1..][i]) by {
        forall i | 0 <= i < |s[1..]| ensures !IsSpace(s[1..][i]) {
          assert s[1..][i] == s[i + 1];
        }
      }
      DashedNoSpace(s[1..]);
      assert s == [s[0]] + s[1..];
    }
  }

  /** Every slug is made of slug characters only. */
  lemma SlugifyAlphabet(title: string)
    ensures AllSlugChars(Slugify(title))
  {
    KeepSlugCharsShape(Dashed(LowerAll(title)));
  }

  /** Slugifying a slug changes nothing. */
  lemma SlugifyIdempotent(title: string)
    ensures Slugify(Slugify(title)) == Slugify(title)
  {
    var s := Slugify(title);
    SlugifyAlphabet(title);
    assert LowerAll(s) == s;
    assert forall i :: 0 <= i < |s| ==> !IsSpace(s[i]);
    DashedNoSpace(s);
    KeepSlugCharsShape(s);
  }

  /** The form's slug pattern `^[a-z0-9-]+$`. */
  predicate SlugPattern(s: string) {
    s != "" && AllSlugChars(s)
  }

  /** A slug derived from a title passes the pattern exactly when it is not empty. */
  lemma SlugifyMatchesPattern(title: string)
    ensures SlugPattern(Slugify(title)) <==> Slugify(title) != ""
  {
    SlugifyAlphabet(title);
  }

  // ---------------------------------------------------------------------
  // The automatic slug
  // ---------------------------------------------------------------------

  /**
   * handleTitleChange as written: the title is stored first, so the test
   * "not edited by hand" compares the slug with the slug of the NEW title.
   * Returns the slug after the change.
   */
  function TitleChangeAsWritten(slug: string, newTitle: string): (r: string)
    ensures slug == "" ==> r == Slugify(newTitle)
    ensures slug != "" ==> r == slug
  {
    if slug == "" || slug == Slugify(newTitle) then Slugify(newTitle) else slug
  }

  /**
   * Typing "Ab" into the title one key at a time: "A" fills the empty slug
   * with "a", then "Ab" leaves it at "a" instead of "ab".
   */
  lemma TitleChangeStopsFollowing()
    ensures Slugify("A") == "a" && Slugify("Ab") == "ab"
    ensures TitleChangeAsWritten(TitleChangeAsWritten("", "A"), "Ab") == "a"
  {
    assert LowerAll("A") == "a";
    assert Dashed("a") == "a";
    assert KeepSlugChars("a") == "a";
    assert LowerAll("Ab") == "ab" by {
      assert LowerAll("Ab") == [Lower('A')] + LowerAll("b");
      assert LowerAll("b") == "b";
    }
    assert Dashed("ab") == "ab" by {
      assert "ab"[1..] == "b";
      assert Dashed("b") == "b";
    }
    assert KeepSlugChars("ab") == "ab" by {
      assert "ab"[1..] == "b";
      assert KeepSlugChars("b") == "b";
    }
  }

  /**
   * handleTitleChange as intended: the slug follows the title while it is
   * empty or still the slug of the previous title; a slug edited by hand stays.
   */
  function TitleChange(oldTitle: string, slug: string, newTitle: string): (r: string)
    ensures slug == "" || slug == Slugify(oldTitle) ==> r == Slugify(newTitle)
    ensures slug != "" && slug != Slugify(oldTitle) ==> r == slug
  {
    if slug == "" || slug == Slugify(oldTitle) then Slugify(newTitle) else slug
  }

  /** A slug that follows its title keeps following it through any edits of the title. */
  lemma {:induction false} AutoSlugFollows(title: string, edits: seq<string>)
    requires |edits| > 0
    ensures AutoSlugAfter(title, Slugify(title), edits) == Slugify(edits[|edits| - 1])
    decreases |edits|
  {
    if |edits| > 1 {
      AutoSlugFollows(edits[0], edits[1..]);
      assert edits[1..][|edits[1..]| - 1] == edits[|edits| - 1];
    }
  }

  /** The slug after a series of title edits, starting from `title` and `slug`. */
  function AutoSlugAfter(title: string, slug: string, edits: seq<string>): string
    decreases |edits|
  {
    if edits == [] then slug
    else AutoSlugAfter(edits[0], TitleChange(title, slug, edits[0]), edits[1..])
  }

  // ---------------------------------------------------------------------
  // The form and its requests
  // ---------------------------------------------------------------------

  datatype PageFormValues = PageFormValues(title: string, slug: string, content: string, addToMenu: bool)

  /** The form check: title, slug and content are filled in, and the slug matches the pattern. */
  predicate ValidPageForm(f: PageFormValues) {
    f.title != "" && f.content != "" && SlugPattern(f.slug)
  }

  /** What the dialog sends. */
  datatype PageRequest =
    | CreatePage(page: PageInput, menuItem: Option<MenuItemInput>)   // POST /api/pages, then POST /api/menu
    | UpdatePage(id: int, patch: PagePatch)                          // PUT /api/pages/{id}

  /**
   * The menu item created with a new page: the title as text, the next
   * order after the loaded items, an internal link to the page's slug.
   */
  function MenuEntryFor(f: PageFormValues, loadedCount: nat): (r: MenuItemInput)
    ensures r.text == f.title && r.order == loadedCount + 1
    ensures r.linkType == Internal && r.internalLink == Some(f.slug) && r.externalUrl.None?
  {
    MenuItemInput(f.title, loadedCount + 1, Internal, Some(f.slug), None)
  }

  /** The request of a valid form: the page fields without addToMenu. */
  function Request(f: PageFormValues, editing: Option<Page>, loadedCount: nat): (r: PageRequest)
    ensures editing.Some? <==> r.UpdatePage?
    ensures r.UpdatePage? ==>
      r.id == editing.value.id && IsInsertPagePatch(r.patch) &&
      r.patch.title == Some(f.title) && r.patch.slug == Some(f.slug) && r.patch.content == Some(f.content)
    ensures r.CreatePage? ==> r.page == PageInput(f.title, f.slug, f.content)
    ensures r.CreatePage? ==> (r.menuItem.Some? <==> f.addToMenu)
    ensures r.CreatePage? && r.menuItem.Some? ==> r.menuItem.value.internalLink == Some(r.page.slug)
    ensures r.CreatePage? && r.menuItem.Some? ==> r.menuItem.value == MenuEntryFor(f, loadedCount)
  {
    match editing
    case Some(p) => UpdatePage(p.id, PagePatch(None, Some(f.title), Some(f.slug), Some(f.content), None, None))
    case None => CreatePage(PageInput(f.title, f.slug, f.content),
                            if f.addToMenu then Some(MenuEntryFor(f, loadedCount)) else None)
  }

  /** Saving an edit without touching the form writes the stored page's fields back. */
  lemma ResubmitUnchanged(p: Page)
    ensures var r := Request(PageFormValues(p.title, p.slug, p.content, false), Some(p), 0);
      OverlayPage(p, r.patch) == p
  {
  }

  /** The dialog's form. */
  class PageForm {
    var values: PageFormValues

    constructor ()
      ensures values == PageFormValues("", "", "", false)
    {
      values := PageFormValues("", "", "", false);
    }

    /** Opening the dialog: an edit starts from the stored page, with addToMenu unticked. */
    method Open(page: Option<Page>)
      modifies this
      ensures page.Some? ==> values == PageFormValues(page.value.title, page.value.slug, page.value.content, false)
      ensures page.None? ==> values == PageFormValues("", "", "", false)
    {
      if page.Some? {
        values := PageFormValues(page.value.title, page.value.slug, page.value.content, false);
      } else {
        values := PageFormValues("", "", "", false);
      }
    }

    /**
     * Typing into the title, as written: an empty slug is filled from the new
     * title and any other slug is kept (see TitleChangeStopsFollowing).
     */
    method ChangeTitle(title: string)
      modifies this
      ensures values == old(values).(title := title, slug := TitleChangeAsWritten(old(values).slug, title))
      ensures old(values).slug == "" ==> values.slug == Slugify(title)
      ensures old(values).slug != "" ==> values.slug == old(values).slug
    {
      var slug := TitleChangeAsWritten(values.slug, title);
      values := values.(title := title, slug := slug);
    }

    /** Typing into the slug. */
    method ChangeSlug(slug: string)
      modifies this
      ensures values == old(values).(slug := slug)
    {
      values := values.(slug := slug);
    }

    /** onSubmit: nothing is sent unless the form passes the check. */
    method Submit(editing: Option<Page>, loadedCount: nat) returns (r: Option<PageRequest>)
      ensures r.None? <==> !ValidPageForm(values)
      ensures r.Some? ==> r.value == Request(values, editing, loadedCount)
    {
      if !ValidPageForm(values) {
        return None;
      }
      r := Some(Request(values, editing, loadedCount));
    }
  }
}
