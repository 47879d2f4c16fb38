/**
 * The file-backed custom button service: the JSON file of buttons is one
 * list, read at the start of every operation and written back after each
 * change. The list is the field `buttons` of a `ButtonFile`.
 */
module CustomButtons {
  import opened Wrappers
  import opened Schema
  import opened IdList

  /** `buttons.filter(button => button.pageSlug === pageSlug)`. */
  function OnPage(buttons: seq<CustomButton>, pageSlug: string): (r: seq<CustomButton>)
    ensures forall k :: 0 <= k < |r| ==> r[k] in buttons && r[k].pageSlug == pageSlug
    ensures forall i :: 0 <= i < |buttons| && buttons[i].pageSlug == pageSlug ==> buttons[i] in r
    ensures |r| <= |buttons|
  {
    if buttons == [] then []
    else if buttons[0].pageSlug == pageSlug then [buttons[0]] + OnPage(buttons[1..], pageSlug)
    else OnPage(buttons[1..], pageSlug)
  }

  /** Filtering distributes over appending: a new button shows up last on its own page only. */
  lemma {:induction false} OnPageAppend(buttons: seq<CustomButton>, x: CustomButton, pageSlug: string)
    ensures OnPage(buttons + [x], pageSlug) ==
      OnPage(buttons, pageSlug) + (if x.pageSlug == pageSlug then [x] else [])
  {
    if buttons == [] {
      assert buttons + [x] == [x];
    } else {
      assert (buttons + [x])[1..] == buttons[1..] + [x];
      OnPageAppend(buttons[1..], x, pageSlug);
    }
  }

  /** The button file: the list every operation loads and saves. */
  class ButtonFile {
    var buttons: seq<CustomButton>

    /** getCustomButtons: the stored list, or an empty one when there is no file yet. */
    constructor (stored: Option<seq<CustomButton>>)
      ensures buttons == if stored.Some? then stored.value else []
    {
      buttons := if stored.Some? then stored.value else [];
    }

    /** getCustomButtonsByPage: exactly the buttons of that page, in stored order. */
    function ButtonsByPage(pageSlug: string): (r: seq<CustomButton>)
      reads this
      ensures forall k :: 0 <= k < |r| ==> r[k] in buttons && r[k].pageSlug == pageSlug
      ensures forall i :: 0 <= i < |buttons| && buttons[i].pageSlug == pageSlug ==> buttons[i] in r
    {
      OnPage(buttons, pageSlug)
    }

    /** getCustomButtonById: the first button with that id, or absent when there is none. */
    function ButtonById(id: int): (r: Option<CustomButton>)
      reads this
      ensures r.Some? ==> r.value.id == id
      ensures r.Some? ==>
        exists i :: 0 <= i < |buttons| && buttons[i] == r.value && forall j :: 0 <= j < i ==> buttons[j].id != id
      ensures r.None? <==> forall i :: 0 <= i < |buttons| ==> buttons[i].id != id
    {
      match IndexOf(buttons, ButtonId, id)
      case None => None
      case Some(i) => Some(buttons[i])
    }

    /**
     * addCustomButton: the caller's button (everything but its id) under the
     * largest stored id plus one (1 for an empty list), appended at the end.
     */
    method AddButton(button: CustomButton) returns (b: CustomButton)
      modifies this
      ensures b == button.(id := NextId(old(buttons), ButtonId))
      ensures forall i :: 0 <= i < |old(buttons)| ==> old(buttons)[i].id < b.id
      ensures buttons == old(buttons) + [b]
    {
      var newId := NextId(buttons, ButtonId);
      b := button.(id := newId);
      buttons := buttons + [b];
    }

    /**
     * updateCustomButton: absent with the list unchanged for an unknown id;
     * otherwise the first button with that id is replaced in place by a
     * plain overlay of the supplied fields. The url is not recomputed: it
     * changes only when the update carries one.
     */
    method UpdateButton(id: int, patch: CustomButtonPatch) returns (r: Option<CustomButton>)
      modifies this
      ensures (forall i :: 0 <= i < |old(buttons)| ==> old(buttons)[i].id != id) ==>
        r.None? && buttons == old(buttons)
      ensures var k := IndexOf(old(buttons), ButtonId, id);
        k.Some? ==> r == Some(OverlayButton(old(buttons)[k.value], patch)) &&
                    buttons == old(buttons)[k.value := r.value]
      ensures r.Some? && patch.url.None? ==> r.value.url == old(buttons)[IndexOf(old(buttons), ButtonId, id).value].url
    {
      var index := IndexOf(buttons, ButtonId, id);
      if index.None? {
        return None;
      }
      var updated := OverlayButton(buttons[index.value], patch);
      buttons := ReplaceAt(buttons, index.value, updated);
      r := Some(updated);
    }

    /**
     * deleteCustomButton: false with the list unchanged when no button has
     * the id; otherwise true, and exactly the first such button is spliced out.
     */
    method DeleteButton(id: int) returns (existed: bool)
      modifies this
      ensures existed <==> exists i :: 0 <= i < |old(buttons)| && old(buttons)[i].id == id
      ensures !existed ==> buttons == old(buttons)
      ensures var k := IndexOf(old(buttons), ButtonId, id);
        k.Some? ==> buttons == RemoveAt(old(buttons), k.value)
    {
      var index := IndexOf(buttons, ButtonId, id);
      if index.None? {
        return false;
      }
      buttons := RemoveAt(buttons, index.value);
      existed := true;
    }
  }

  /**
   * An update that changes the link type but carries no url leaves the
   * stored url in place, so it can point at the old target: an internal
   * button on "/home" switched to external keeps url "/home".
   */
  lemma StaleUrlAfterTypeChange()
    ensures var b := CustomButton(1, "Ir", Internal, "/home", Some("home"), None, None, "home",
                                  DefaultStyle, DefaultSize, Some(true), None);
      var patch := CustomButtonPatch(None, None, Some(External), None, Some(None), Some(Some("https://x.org")),
                                     None, None, None, None, None, None);
      var u := OverlayButton(b, patch);
      u.linkType == External && u.externalUrl == Some("https://x.org") && u.url == "/home"
  {
  }
}
