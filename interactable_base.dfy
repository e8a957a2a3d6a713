/** The interactable base (InteractableBase) and its concrete kinds: the
    hint and key labels, the highlight toggle over the renderers' materials,
    emission and an optional light, and Interact dispatched on the kind. */
module InteractableBase {
  import opened Unity
  import opened InteractionMenuUI
  import InteractableWithMenu
  import InteractableScenePortal

  /** The interaction kinds an interactable can declare. */
  datatype InteractionType = Simple | Menu | VehicleEnter | ScenePortal

  /** The concrete subclasses of InteractableBase, with their inspector
      settings. */
  datatype Behaviour =
    | WithMenu(teleportTarget: Option<Vector3>, sceneToLoad: string)
    | ScenePortalAction(sceneToLoad: string, delayBeforeLoad: real)
    | VehicleSeat

  /** The highlight settings. */
  datatype HighlightConfig = HighlightConfig(highlightMaterial: Option<Material>, useEmissionHighlight: bool,
                                             emissionColor: Color, emissionIntensity: real, hasLight: bool)

  /** What the highlight toggle governs: the flag, each renderer's material
      and the light's enabled flag. */
  datatype Appearance = Appearance(highlighted: bool, materials: seq<Material>, lightEnabled: bool)

  /** The emission colour of a highlighted material. */
  function Glow(cfg: HighlightConfig): (c: Color)
    ensures c.r == cfg.emissionColor.r * cfg.emissionIntensity && c.g == cfg.emissionColor.g * cfg.emissionIntensity
    ensures c.b == cfg.emissionColor.b * cfg.emissionIntensity && c.a == cfg.emissionColor.a * cfg.emissionIntensity
  {
    Scale(cfg.emissionColor, cfg.emissionIntensity)
  }

  /** One renderer's material after an effective toggle: the override
      material (or the saved original on disable) when one is set; otherwise,
      with emission highlighting, the same material with its emission turned
      on at the glow colour or turned off at black; otherwise unchanged. */
  function Paint(cfg: HighlightConfig, original: Material, current: Material, enable: bool): (m: Material)
    ensures cfg.highlightMaterial.Some? ==> m == (if enable then cfg.highlightMaterial.value else original)
    ensures cfg.highlightMaterial.None? ==> m.id == current.id
    ensures cfg.highlightMaterial.None? && cfg.useEmissionHighlight ==>
              m.emissionKeyword == enable && m.emission == (if enable then Glow(cfg) else Black)
    ensures cfg.highlightMaterial.None? && !cfg.useEmissionHighlight ==> m == current
  {
    match cfg.highlightMaterial
    case Some(hm) => if enable then hm else original
    case None =>
      if !cfg.useEmissionHighlight then current
      else if enable then current.(emissionKeyword := true, emission := Glow(cfg))
      else current.(emissionKeyword := false, emission := Black)
  }

  function Repaint(cfg: HighlightConfig, original: seq<Material>, current: seq<Material>, enable: bool): (r: seq<Material>)
    requires |original| == |current|
    ensures |r| == |current|
    ensures forall i :: 0 <= i < |r| ==> r[i] == Paint(cfg, original[i], current[i], enable)
  {
    seq(|current|, i requires 0 <= i < |current| => Paint(cfg, original[i], current[i], enable))
  }

  /** SetHighlight as a function of the appearance: a call asking for the
      state already in force changes nothing; otherwise the flag takes the
      requested value, the materials are repainted and a present light
      follows the flag. */
  function Toggle(cfg: HighlightConfig, original: seq<Material>, a: Appearance, enable: bool): (r: Appearance)
    requires |a.materials| == |original|
    ensures r.highlighted == enable
    ensures |r.materials| == |a.materials|
    ensures a.highlighted == enable ==> r == a
    ensures cfg.hasLight && a.highlighted != enable ==> r.lightEnabled == enable
    ensures !cfg.hasLight ==> r.lightEnabled == a.lightEnabled
  {
    if a.highlighted == enable then a
    else Appearance(enable, Repaint(cfg, original, a.materials, enable),
                    if cfg.hasLight then enable else a.lightEnabled)
  }

  /** Idempotence: asking twice for the same state is asking once. */
  lemma ToggleIdempotent(cfg: HighlightConfig, original: seq<Material>, a: Appearance, enable: bool)
    requires |a.materials| == |original|
    ensures Toggle(cfg, original, Toggle(cfg, original, a, enable), enable) == Toggle(cfg, original, a, enable)
  {
  }

  /** With an override material, enabling puts it on every renderer and
      disabling puts back exactly the saved originals, whatever happened in
      between; so enable-then-disable from the baseline returns to it. */
  lemma {:induction false} OverrideRestoresBaseline(cfg: HighlightConfig, original: seq<Material>, a: Appearance)
    requires cfg.highlightMaterial.Some? && |a.materials| == |original|
    ensures !a.highlighted ==> Toggle(cfg, original, a, true).materials == seq(|original|, _ => cfg.highlightMaterial.value)
    ensures a.highlighted ==> Toggle(cfg, original, a, false).materials == original
    ensures a.materials == original && !a.highlighted ==>
              Toggle(cfg, original, Toggle(cfg, original, a, true), false).materials == original
  {
    if !a.highlighted {
      var on := Toggle(cfg, original, a, true);
      assert on.materials == seq(|original|, _ => cfg.highlightMaterial.value);
      var off := Toggle(cfg, original, on, false);
      assert off.materials == original;
    } else {
      assert Toggle(cfg, original, a, false).materials == original;
    }
  }

  /** With emission highlighting, the materials stay the same objects, and
      enable-then-disable gives back the starting materials exactly when
      none of them had its emission on with a colour other than black:
      disabling always writes black and turns the keyword off. */
  lemma {:induction false} EmissionRoundTrip(cfg: HighlightConfig, original: seq<Material>, a: Appearance)
    requires cfg.highlightMaterial.None? && cfg.useEmissionHighlight
    requires |a.materials| == |original| && !a.highlighted
    ensures var on := Toggle(cfg, original, a, true);
            forall i :: 0 <= i < |on.materials| ==> on.materials[i].id == a.materials[i].id
    ensures Toggle(cfg, original, Toggle(cfg, original, a, true), false).materials == a.materials
            <==> forall i :: 0 <= i < |a.materials| ==> !a.materials[i].emissionKeyword && a.materials[i].emission == Black
  {
    var on := Toggle(cfg, original, a, true);
    var off := Toggle(cfg, original, on, false);
    assert forall i :: 0 <= i < |off.materials| ==>
      off.materials[i] == a.materials[i].(emissionKeyword := false, emission := Black);
    if off.materials == a.materials {
      forall i | 0 <= i < |a.materials|
        ensures !a.materials[i].emissionKeyword && a.materials[i].emission == Black
      {
        assert off.materials[i] == a.materials[i];
      }
    }
    if forall i :: 0 <= i < |a.materials| ==> !a.materials[i].emissionKeyword && a.materials[i].emission == Black {
      assert off.materials == a.materials;
    }
  }

  /** The strategies are exclusive: with an override material the emission
      settings of the materials are never edited (each renderer holds the
      override or its saved original), and with neither strategy the
      materials do not change at all. */
  lemma StrategiesExclusive(cfg: HighlightConfig, original: seq<Material>, a: Appearance, enable: bool)
    requires |a.materials| == |original| && a.highlighted != enable
    ensures cfg.highlightMaterial.Some? ==>
              forall i :: 0 <= i < |original| ==>
                Toggle(cfg, original, a, enable).materials[i] in {cfg.highlightMaterial.value, original[i]}
    ensures cfg.highlightMaterial.None? && !cfg.useEmissionHighlight ==>
              Toggle(cfg, original, a, enable).materials == a.materials
  {
  }

  class Interactable {
    const behaviour: Behaviour

    var hintText: string
    var keyLabel: string
    var interactionType: InteractionType

    const highlightMaterial: Option<Material>
    const useEmissionHighlight: bool
    const emissionColor: Color
    const emissionIntensity: real
    const hasLight: bool
    var lightEnabled: bool

    /** The current material of each child renderer. */
    const renderers: array<Material>
    /** The materials captured on Awake, one per renderer. */
    const originalMaterials: array<Material>
    var isHighlighted: bool

    /** Resume times of the DoLoad coroutines in flight (scene portals). */
    var pendingLoads: seq<real>

    ghost predicate Valid()
      reads this
    {
      renderers.Length == originalMaterials.Length && renderers != originalMaterials
    }

    function Config(): HighlightConfig
      reads this
    {
      HighlightConfig(highlightMaterial, useEmissionHighlight, emissionColor, emissionIntensity, hasLight)
    }

    function Look(): Appearance
      reads this, renderers
    {
      Appearance(isHighlighted, renderers[..], lightEnabled)
    }

    /** Awake: caches the child renderers (`materials`, one per renderer)
        and captures each one's material as its baseline. */
    constructor (behaviour: Behaviour, hintText: string, keyLabel: string, interactionType: InteractionType,
                 highlightMaterial: Option<Material>, useEmissionHighlight: bool, emissionColor: Color,
                 emissionIntensity: real, hasLight: bool, lightEnabled: bool, materials: seq<Material>)
      ensures Valid() && fresh(renderers) && fresh(originalMaterials)
      ensures this.behaviour == behaviour && this.hintText == hintText && this.keyLabel == keyLabel
      ensures this.interactionType == interactionType
      ensures Config() == HighlightConfig(highlightMaterial, useEmissionHighlight, emissionColor, emissionIntensity, hasLight)
      ensures this.lightEnabled == lightEnabled
      ensures renderers[..] == materials && originalMaterials[..] == materials
      ensures !isHighlighted && pendingLoads == []
    {
      this.behaviour := behaviour;
      this.hintText := hintText;
      this.keyLabel := keyLabel;
      this.interactionType := interactionType;
      this.highlightMaterial := highlightMaterial;
      this.useEmissionHighlight := useEmissionHighlight;
      this.emissionColor := emissionColor;
      this.emissionIntensity := emissionIntensity;
      this.hasLight := hasLight;
      this.lightEnabled := lightEnabled;
      isHighlighted := false;
      pendingLoads := [];
      var rs := new Material[|materials|](i requires 0 <= i < |materials| => materials[i]);
      var originals := new Material[rs.Length];
      for i := 0 to rs.Length
        modifies originals
        invariant forall k :: 0 <= k < i ==> originals[k] == rs[k]
      {
        originals[i] := rs[i];
      }
      renderers := rs;
      originalMaterials := originals;
      assert originals[..] == rs[..] == materials;
    }

    /** Turns the highlight on or off; see Toggle for what that does. */
    method SetHighlight(enable: bool)
      requires Valid()
      modifies this, renderers
      ensures Look() == Toggle(Config(), originalMaterials[..], old(Look()), enable)
      ensures pendingLoads == old(pendingLoads) && hintText == old(hintText) && keyLabel == old(keyLabel)
      ensures interactionType == old(interactionType)
    {
      if isHighlighted == enable {
        return;
      }
      isHighlighted := enable;
      if highlightMaterial.Some? {
        ApplyOverride(enable);
      } else if useEmissionHighlight {
        ApplyEmission(enable);
      }
      if hasLight {
        lightEnabled := enable;
      }
    }

    /** The override branch of SetHighlight: every renderer gets the
        override material, or back its saved original. */
    method ApplyOverride(enable: bool)
      requires Valid() && highlightMaterial.Some?
      modifies renderers
      ensures renderers[..] == Repaint(Config(), originalMaterials[..], old(renderers[..]), enable)
    {
      for i := 0 to renderers.Length
        invariant forall k :: 0 <= k < i ==> renderers[k] == Paint(Config(), originalMaterials[k], old(renderers[k]), enable)
        invariant forall k :: i <= k < renderers.Length ==> renderers[k] == old(renderers[k])
      {
        renderers[i] := if enable then highlightMaterial.value else originalMaterials[i];
      }
    }

    /** The emission branch of SetHighlight: each renderer's own material has
        its emission turned on at the glow colour, or off at black. */
    method ApplyEmission(enable: bool)
      requires Valid() && highlightMaterial.None? && useEmissionHighlight
      modifies renderers
      ensures renderers[..] == Repaint(Config(), originalMaterials[..], old(renderers[..]), enable)
    {
      for i := 0 to renderers.Length
        invariant forall k :: 0 <= k < i ==> renderers[k] == Paint(Config(), originalMaterials[k], old(renderers[k]), enable)
        invariant forall k :: i <= k < renderers.Length ==> renderers[k] == old(renderers[k])
      {
        var mat := renderers[i];
        if enable {
          mat := mat.(emissionKeyword := true);
          mat := mat.(emission := Scale(emissionColor, emissionIntensity));
        } else {
          mat := mat.(emission := Black);
          mat := mat.(emissionKeyword := false);
        }
        renderers[i] := mat;
      }
    }

    method OnHoverEnter()
      requires Valid()
      modifies this, renderers
      ensures Look() == Toggle(Config(), originalMaterials[..], old(Look()), true)
      ensures pendingLoads == old(pendingLoads) && hintText == old(hintText) && keyLabel == old(keyLabel)
      ensures interactionType == old(interactionType)
    {
      SetHighlight(true);
    }

    method OnHoverExit()
      requires Valid()
      modifies this, renderers
      ensures Look() == Toggle(Config(), originalMaterials[..], old(Look()), false)
      ensures pendingLoads == old(pendingLoads) && hintText == old(hintText) && keyLabel == old(keyLabel)
      ensures interactionType == old(interactionType)
    {
      SetHighlight(false);
    }

    /** Activation, by kind.  A menu interactable opens the choice menu
        (without a menu instance the call fails before changing anything); a
        portal with a scene name starts one more delayed load; a vehicle
        seat only logs. */
    method Interact(menu: Menu?, now: real)
      modifies this`pendingLoads, menu
      ensures behaviour.ScenePortalAction? && behaviour.sceneToLoad != "" ==>
                pendingLoads == old(pendingLoads) + [now + behaviour.delayBeforeLoad]
      ensures !(behaviour.ScenePortalAction? && behaviour.sceneToLoad != "") ==> pendingLoads == old(pendingLoads)
      ensures behaviour.WithMenu? && menu != null ==>
                var a := InteractableWithMenu.MenuRequest(hintText, behaviour.teleportTarget, behaviour.sceneToLoad);
                && menu.Opened(a.title, a.option1Label, a.option1, a.option2Label, a.option2, a.cancel)
                && menu.button2Active == (if menu.hasButton2 then behaviour.sceneToLoad != "" else old(menu.button2Active))
      ensures !behaviour.WithMenu? && menu != null ==> unchanged(menu)
    {
      match behaviour
      case WithMenu(target, scene) =>
        if menu != null {
          var a := InteractableWithMenu.MenuRequest(hintText, target, scene);
          menu.Show(a.title, a.option1Label, a.option1, a.option2Label, a.option2, a.cancel);
          InteractableWithMenu.Option2IffScene(hintText, target, scene);
        }
      case ScenePortalAction(scene, delay) =>
        if scene == "" {
          return;
        }
        pendingLoads := pendingLoads + [now + delay];
      case VehicleSeat =>
    }

    /** The frame at time `now` for the DoLoad coroutines: every one whose
        wait is over loads the portal's scene and ends; the others keep
        waiting. */
    method ResumeLoads(now: real, scenes: SceneManager)
      requires behaviour.ScenePortalAction?
      modifies this`pendingLoads, scenes
      ensures scenes.loaded == old(scenes.loaded)
                + InteractableScenePortal.Loads(behaviour.sceneToLoad, |InteractableScenePortal.Due(old(pendingLoads), now)|)
      ensures pendingLoads == InteractableScenePortal.Waiting(old(pendingLoads), now)
    {
      var all := pendingLoads;
      var waiting: seq<real> := [];
      ghost var resumed: seq<real> := [];
      var i := 0;
      while i < |all|
        invariant 0 <= i <= |all|
        invariant waiting == InteractableScenePortal.Waiting(all[..i], now)
        invariant resumed == InteractableScenePortal.Due(all[..i], now)
        invariant scenes.loaded == old(scenes.loaded) + InteractableScenePortal.Loads(behaviour.sceneToLoad, |resumed|)
      {
        InteractableScenePortal.DueWaitingStep(all, i, now);
        if all[i] <= now {
          scenes.LoadScene(behaviour.sceneToLoad);
          resumed := resumed + [all[i]];
        } else {
          waiting := waiting + [all[i]];
        }
        i := i + 1;
      }
      assert all[..i] == all;
      pendingLoads := waiting;
    }
  }
}
