/** The hover registry (PlayerInteractionManager): one hovered-interactable
    slot, the hint text composed as "[key] hint", the unhover path that hides
    the hint and closes an open menu, and activation of the hovered object.
    The trigger forwarding of InteractableBase lives here too, since it
    calls into the registry. */
module PlayerInteractionManager {
  import opened Unity
  import opened InteractionMenuUI
  import opened InteractionHintUI
  import opened InteractableBase

  const DefaultKey := "F"
  const DefaultHint := "Взаимодействие"
  /** The hint shown for an object that has no InteractableBase. */
  const PlainHint := "Нажмите F"

  /** The key label shown: never empty, and the object's own when it has one. */
  function KeyOrDefault(key: string): (r: string)
    ensures r != "" && (key != "" ==> r == key) && (key == "" ==> r == DefaultKey)
  {
    if key == "" then DefaultKey else key
  }

  /** The hint shown: never empty, and the object's own when it has one. */
  function HintOrDefault(hint: string): (r: string)
    ensures r != "" && (hint != "" ==> r == hint) && (hint == "" ==> r == DefaultHint)
  {
    if hint == "" then DefaultHint else hint
  }

  /** The hint text "[key] hint", with "F" for a missing key label and
      "Взаимодействие" for a missing hint text. */
  function HintLabel(key: string, hint: string): (r: string)
    ensures var k := KeyOrDefault(key);
            && |r| == |k| + |HintOrDefault(hint)| + 3
            && r[0] == '[' && r[1..|k| + 1] == k && r[|k| + 1..|k| + 3] == "] " && r[|k| + 3..] == HintOrDefault(hint)
  {
    "[" + KeyOrDefault(key) + "] " + HintOrDefault(hint)
  }

  /** The first position of `c` in `s`, if any. */
  function IndexOf(s: string, c: char): (r: Option<nat>)
    ensures r.Some? ==> r.value < |s| && s[r.value] == c && c !in s[..r.value]
    ensures r.None? ==> c !in s
  {
    if s == [] then None
    else if s[0] == c then Some(0)
    else
      var rest := IndexOf(s[1..], c);
      if rest.Some? then
        assert s[..rest.value + 1] == [s[0]] + s[1..][..rest.value];
        Some(rest.value + 1)
      else
        assert s == [s[0]] + s[1..];
        None
  }

  /** Reads a hint text back into its key and hint parts: the key runs from
      after the opening bracket to the first closing bracket, which must be
      followed by a space. */
  function ParseHintLabel(s: string): (r: Option<(string, string)>)
    ensures r.Some? ==> s == "[" + r.value.0 + "] " + r.value.1 && ']' !in r.value.0
  {
    if |s| == 0 || s[0] != '[' then None
    else
      match IndexOf(s[1..], ']')
      case None => None
      case Some(j) =>
        if j + 2 < |s| && s[j + 2] == ' ' then
          var key, hint := s[1..j + 1], s[j + 3..];
          assert s == "[" + key + "] " + hint;
          Some((key, hint))
        else None
  }

  lemma {:induction false} IndexOfPrefix(k: string, rest: string, c: char)
    requires c !in k
    ensures IndexOf(k + [c] + rest, c) == Some(|k|)
  {
    if k != [] {
      assert (k + [c] + rest)[1..] == k[1..] + [c] + rest;
      IndexOfPrefix(k[1..], rest, c);
    }
  }

  /** Composing and reading back recovers the key label and the hint in
      force (defaults included), provided the key has no closing bracket. */
  lemma HintLabelRoundTrip(key: string, hint: string)
    requires ']' !in KeyOrDefault(key)
    ensures ParseHintLabel(HintLabel(key, hint)) == Some((KeyOrDefault(key), HintOrDefault(hint)))
  {
    var k, h := KeyOrDefault(key), HintOrDefault(hint);
    var s := HintLabel(key, hint);
    assert s == "[" + k + "] " + h;
    assert s[1..] == k + [']'] + (" " + h);
    IndexOfPrefix(k, " " + h, ']');
    assert s[1..|k| + 1] == k && s[|k| + 3..] == h;
  }

  /** An object with neither a key label nor a hint text shows
      "[F] Взаимодействие". */
  lemma DefaultHintLabel()
    ensures HintLabel("", "") == "[F] Взаимодействие"
  {
  }

  /** The hint text shown when `x` is hovered. */
  function HoverText(x: Interactable?): (r: string)
    reads x
    ensures x == null ==> r == PlainHint
    ensures x != null ==> |r| == |KeyOrDefault(x.keyLabel)| + |HintOrDefault(x.hintText)| + 3
                          && r[1..|KeyOrDefault(x.keyLabel)| + 1] == KeyOrDefault(x.keyLabel)
                          && r[|KeyOrDefault(x.keyLabel)| + 3..] == HintOrDefault(x.hintText)
  {
    if x == null then PlainHint else HintLabel(x.keyLabel, x.hintText)
  }

  class Manager {
    const hint: Hint?
    const menu: Menu?
    var currentHovered: Interactable?

    constructor (hint: Hint?, menu: Menu?)
      ensures this.hint == hint && this.menu == menu && currentHovered == null
    {
      this.hint := hint;
      this.menu := menu;
      currentHovered := null;
    }

    /** A player came into range of `x`: it becomes the hovered object
        (last wins; the previous one is not told it lost the hover), the hint
        shows its text and `x` is highlighted. */
    method OnObjectHovered(x: Interactable?)
      requires x != null ==> x.Valid()
      modifies this, hint, x, if x == null then {} else {x.renderers}
      ensures currentHovered == x
      ensures hint != null ==> hint.visible
                               && hint.text == (if hint.hasText then old(HoverText(x)) else old(hint.text))
                               && hint.alpha == (if hint.hasRoot then 1.0 else old(hint.alpha))
                               && hint.background == old(hint.background)
      ensures x != null ==> x.isHighlighted
      ensures x != null ==> x.Look() == Toggle(x.Config(), x.originalMaterials[..], old(x.Look()), true)
                            && x.pendingLoads == old(x.pendingLoads) && x.hintText == old(x.hintText)
                            && x.keyLabel == old(x.keyLabel) && x.interactionType == old(x.interactionType)
    {
      currentHovered := x;
      var finalHint := PlainHint;
      if x != null {
        finalHint := HintLabel(x.keyLabel, x.hintText);
      }
      if hint != null {
        hint.SetVisible(true, Some(finalHint));
      }
      if x != null {
        x.OnHoverEnter();
      }
    }

    /** A player left the range of `x`: the slot is cleared only if it held
        `x`, but the hint is hidden, an open menu is closed without firing
        any callback, and `x` loses its highlight in every case. */
    method OnObjectUnhovered(x: Interactable?)
      requires x != null ==> x.Valid()
      modifies this, hint, menu, x, if x == null then {} else {x.renderers}
      ensures currentHovered == (if old(currentHovered) == x then null else old(currentHovered))
      ensures hint != null ==> !hint.visible && hint.text == old(hint.text)
                               && hint.alpha == (if hint.hasRoot then 0.0 else old(hint.alpha))
                               && hint.background == (if hint.hasBackground then hint.baseColor else old(hint.background))
      ensures menu != null ==> !menu.IsVisible() && menu.slots == old(menu.slots) && menu.fired == old(menu.fired)
                               && menu.bindings == old(menu.bindings)
                               && menu.texts == old(menu.texts) && menu.button2Active == old(menu.button2Active)
      ensures menu != null ==> menu.panel == (if old(menu.IsVisible()) then PanelFor(false) else old(menu.panel))
      ensures x != null ==> !x.isHighlighted
      ensures x != null ==> x.Look() == Toggle(x.Config(), x.originalMaterials[..], old(x.Look()), false)
                            && x.pendingLoads == old(x.pendingLoads) && x.hintText == old(x.hintText)
                            && x.keyLabel == old(x.keyLabel) && x.interactionType == old(x.interactionType)
    {
      if currentHovered == x {
        currentHovered := null;
      }
      if hint != null {
        hint.SetVisible(false, None);
      }
      if menu != null && menu.IsVisible() {
        menu.Hide();
      }
      if x != null {
        x.OnHoverExit();
      }
    }

    /** The Interact input: activates the hovered object, if any, with no
        cooldown. */
    method OnInteractPerformed(now: real)
      modifies (if currentHovered == null then {} else {currentHovered})`pendingLoads, menu
      ensures currentHovered == old(currentHovered)
      ensures currentHovered != null && currentHovered.behaviour.ScenePortalAction?
              && currentHovered.behaviour.sceneToLoad != "" ==>
                currentHovered.pendingLoads == old(currentHovered.pendingLoads) + [now + currentHovered.behaviour.delayBeforeLoad]
      ensures currentHovered != null && !(currentHovered.behaviour.ScenePortalAction?
              && currentHovered.behaviour.sceneToLoad != "") ==>
                currentHovered.pendingLoads == old(currentHovered.pendingLoads)
      ensures currentHovered != null && currentHovered.behaviour.WithMenu? && menu != null ==>
                var a := InteractableWithMenu.MenuRequest(currentHovered.hintText, currentHovered.behaviour.teleportTarget,
                                                          currentHovered.behaviour.sceneToLoad);
                && menu.Opened(a.title, a.option1Label, a.option1, a.option2Label, a.option2, a.cancel)
                && menu.button2Active == (if menu.hasButton2 then currentHovered.behaviour.sceneToLoad != ""
                                          else old(menu.button2Active))
      ensures !(currentHovered != null && currentHovered.behaviour.WithMenu?) && menu != null ==> unchanged(menu)
    {
      if currentHovered != null {
        currentHovered.Interact(menu, now);
      }
    }
  }

  /** InteractableBase.OnTriggerEnter: `mgr` is the registry found above the
      entering collider, if any; it is told that `self` is hovered.  Without
      a registry nothing happens. */
  method TriggerEnter(self: Interactable, mgr: Manager?)
    requires self.Valid()
    modifies if mgr == null then {} else {mgr, mgr.hint, self, self.renderers}
    ensures mgr != null ==> mgr.currentHovered == self
    ensures mgr != null && mgr.hint != null ==>
              mgr.hint.visible
              && mgr.hint.text == (if mgr.hint.hasText then old(HoverText(self)) else old(mgr.hint.text))
              && mgr.hint.alpha == (if mgr.hint.hasRoot then 1.0 else old(mgr.hint.alpha))
              && mgr.hint.background == old(mgr.hint.background)
    ensures mgr != null ==> self.isHighlighted
                            && self.Look() == Toggle(self.Config(), self.originalMaterials[..], old(self.Look()), true)
    ensures self.pendingLoads == old(self.pendingLoads) && self.hintText == old(self.hintText)
            && self.keyLabel == old(self.keyLabel) && self.interactionType == old(self.interactionType)
    ensures mgr == null ==> unchanged(self, self.renderers)
  {
    if mgr != null {
      mgr.OnObjectHovered(self);
    }
  }

  /** InteractableBase.OnTriggerExit: the registry, if any, is told that
      `self` is no longer hovered: the slot is cleared if it held `self`,
      the hint is hidden, an open menu is closed without firing and `self`
      loses its highlight.  Without a registry nothing happens. */
  method TriggerExit(self: Interactable, mgr: Manager?)
    requires self.Valid()
    modifies if mgr == null then {} else {mgr, mgr.hint, mgr.menu, self, self.renderers}
    ensures mgr != null ==> mgr.currentHovered == (if old(mgr.currentHovered) == self then null else old(mgr.currentHovered))
    ensures mgr != null && mgr.hint != null ==>
              !mgr.hint.visible && mgr.hint.text == old(mgr.hint.text)
              && mgr.hint.alpha == (if mgr.hint.hasRoot then 0.0 else old(mgr.hint.alpha))
              && mgr.hint.background == (if mgr.hint.hasBackground then mgr.hint.baseColor else old(mgr.hint.background))
    ensures mgr != null && mgr.menu != null ==>
              !mgr.menu.IsVisible() && mgr.menu.slots == old(mgr.menu.slots) && mgr.menu.fired == old(mgr.menu.fired)
              && mgr.menu.bindings == old(mgr.menu.bindings)
              && mgr.menu.texts == old(mgr.menu.texts) && mgr.menu.button2Active == old(mgr.menu.button2Active)
    ensures mgr != null && mgr.menu != null ==>
              mgr.menu.panel == (if old(mgr.menu.IsVisible()) then PanelFor(false) else old(mgr.menu.panel))
    ensures mgr != null ==> !self.isHighlighted
                            && self.Look() == Toggle(self.Config(), self.originalMaterials[..], old(self.Look()), false)
    ensures self.pendingLoads == old(self.pendingLoads) && self.hintText == old(self.hintText)
            && self.keyLabel == old(self.keyLabel) && self.interactionType == old(self.interactionType)
    ensures mgr == null ==> unchanged(self, self.renderers)
  {
    if mgr != null {
      mgr.OnObjectUnhovered(self);
    }
  }
}
