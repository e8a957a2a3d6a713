/** Call sequences through the interaction objects, each on freshly created
    objects, with what the code makes of them. */
module Scenarios {
  import opened Unity
  import opened InteractionMenuUI
  import opened InteractionHintUI
  import opened InteractableBase
  import opened PlayerInteractionManager
  import PlayerInteraction
  import CrosshairController
  import PlayerOnWorldMapMoveToLocation
  import InteractableWithMenu

  /** A plain material, not highlighted. */
  const Plain := Material(0, false, Black)

  method NewInteractable(behaviour: Behaviour, hintText: string, keyLabel: string) returns (x: Interactable)
    ensures fresh(x) && fresh(x.renderers) && fresh(x.originalMaterials) && x.Valid()
    ensures x.behaviour == behaviour && x.hintText == hintText && x.keyLabel == keyLabel
    ensures !x.isHighlighted && x.pendingLoads == [] && x.renderers[..] == [Plain]
    ensures x.Config() == HighlightConfig(None, true, Color(1.0, 1.0, 0.0, 1.0), 2.0, true)
  {
    x := new Interactable(behaviour, hintText, keyLabel, Simple, None, true, Color(1.0, 1.0, 0.0, 1.0), 2.0, true, false, [Plain]);
  }

  /** Two overlapping objects: hover A, hover B, then leave A.  B stays the
      hovered object and keeps its highlight, A loses its highlight, but the
      hint is hidden although B is still in range. */
  method OverlappingHovers() returns (current: Interactable?, b: Interactable, hintVisible: bool, aLit: bool, bLit: bool)
    ensures current == b
    ensures !hintVisible && !aLit && bLit
  {
    var hint := new Hint(true, true, true, Black, "", 0.0, Black);
    var mgr := new Manager(hint, null);
    var a := NewInteractable(VehicleSeat, "", "");
    b := NewInteractable(VehicleSeat, "", "");
    mgr.OnObjectHovered(a);
    assert !b.isHighlighted && b.Valid();
    mgr.OnObjectHovered(b);
    assert a.Valid() && mgr.currentHovered == b;
    bLit := b.isHighlighted;
    mgr.OnObjectUnhovered(a);
    current, hintVisible, aLit := mgr.currentHovered, hint.visible, a.isHighlighted;
  }

  /** The hint shows the composed label of the last object hovered, with
      the defaults filled in. */
  method HoverLabel() returns (shown: string)
    ensures shown == "[F] Взаимодействие"
  {
    var hint := new Hint(true, true, false, Black, "", 0.0, Black);
    var mgr := new Manager(hint, null);
    var x := NewInteractable(VehicleSeat, "", "");
    DefaultHintLabel();
    mgr.OnObjectHovered(x);
    shown := hint.text;
  }

  /** Two sessions shown back to back: F fires only the newest option 1
      and closes the menu, and a second F on the closed menu fires nothing. */
  method NewestSessionWins() returns (fired: seq<Callback>, visible: bool)
    ensures fired == [Opaque(2)] && !visible
  {
    var menu := new Menu(true, true, true, true, true, true, true, false);
    menu.Show("first", "one", Some(Opaque(1)), None, None, Some(Opaque(10)));
    menu.Show("second", "two", Some(Opaque(2)), None, None, Some(Opaque(20)));
    menu.Update(true, true, false);
    menu.Update(true, true, false);
    fired, visible := menu.fired, menu.IsVisible();
  }

  /** F and Escape in the same frame fire option 1 and then cancel. */
  method BothKeysOneFrame() returns (fired: seq<Callback>)
    ensures fired == [Opaque(1), Opaque(3)]
  {
    var menu := new Menu(true, true, true, true, true, true, true, false);
    menu.Show("t", "one", Some(Opaque(1)), Some("two"), Some(Opaque(2)), Some(Opaque(3)));
    menu.Update(true, true, true);
    fired := menu.fired;
  }

  /** Clicking option 2 fires its callback once and closes the menu; a click
      on cancel after that does not reach the hidden panel.  Hiding left the
      callbacks stored. */
  method ClickThenStrayClick() returns (fired: seq<Callback>, visible: bool, kept: Option<Callback>)
    ensures fired == [Opaque(2)] && !visible && kept == Some(Opaque(3))
  {
    var menu := new Menu(true, true, true, true, true, true, true, false);
    menu.Show("t", "one", Some(Opaque(1)), Some("two"), Some(Opaque(2)), Some(Opaque(3)));
    menu.Click(Option2Button);
    menu.Click(CancelButton);
    fired, visible, kept := menu.fired, menu.IsVisible(), menu.slots.cancel;
  }

  /** A menu without a root panel is never hidden, so a click on option 1
      still runs its listener and fires the stored callback. */
  method ClickWithoutRoot() returns (fired: seq<Callback>, visible: bool)
    ensures fired == [Opaque(1)] && !visible
  {
    var menu := new Menu(false, true, true, true, true, true, true, false);
    menu.Show("t", "one", Some(Opaque(1)), None, None, Some(Opaque(3)));
    menu.Click(Option1Button);
    fired, visible := menu.fired, menu.IsVisible();
  }

  /** Activating a menu interactable that has no teleport target opens the
      hidden menu without finding its caption, so option 1 keeps its old
      caption; a second activation on the open menu writes "Нет места".
      Clicking option 1 then only reports that there is no target, and
      closes the menu. */
  method ActivateThenClick() returns (fired: seq<Callback>, visible: bool, kept: bool, caption: string)
    ensures fired == [ReportNoTarget] && !visible
    ensures kept && caption == InteractableWithMenu.NoPlaceCaption
  {
    var menu := new Menu(true, true, true, true, true, true, true, false);
    var x := NewInteractable(WithMenu(None, "Forest"), "Статуя", "F");
    var initial := menu.texts.option1;
    x.Interact(menu, 0.0);
    kept := menu.texts.option1 == initial;
    x.Interact(menu, 0.5);
    caption := menu.texts.option1;
    menu.Click(Option1Button);
    fired, visible := menu.fired, menu.IsVisible();
  }

  /** A menu interactable without a scene, hovered and activated: the
      session's option 2 is empty, its second button inactive, and F teleports
      nowhere because there is no target. */
  method MenuWithoutScene() returns (option2: Option<Callback>, button2: bool, effects: seq<Effect>)
    ensures option2 == None && !button2 && effects == []
  {
    var menu := new Menu(true, true, true, true, true, true, true, true);
    var hint := new Hint(true, true, true, Black, "", 0.0, Black);
    var mgr := new Manager(hint, menu);
    var x := NewInteractable(WithMenu(None, ""), "Статуя", "F");
    mgr.OnObjectHovered(x);
    mgr.OnInteractPerformed(0.0);
    menu.Update(true, true, false);
    option2, button2 := menu.slots.option2, menu.button2Active;
    effects := Outcome(menu.fired[0], true);
  }

  /** The cooldown counts from time 0: a request in the first `cooldown`
      seconds is consumed without an activation, and one at 1.0 activates
      the target once, however many input events raised it. */
  method CooldownFromStart() returns (acts: seq<PlayerInteraction.Activation>)
    ensures acts == [PlayerInteraction.Activation(1.0, 7)]
  {
    var p := new PlayerInteraction.Player(1, 0.5, true, true);
    p.OnTriggerEnter(PlayerInteraction.Collider(2, Some(7)));
    p.OnInteractPerformed();
    p.Update(0.2);
    p.OnInteractPerformed();
    p.OnInteractPerformed();
    p.Update(1.0);
    p.Update(1.1);
    acts := p.activations;
  }

  /** Leaving a collider that is not the current target keeps the target. */
  method ExitOtherKeepsTarget() returns (current: Option<PlayerInteraction.TargetRef>, hint: bool)
    ensures current == Some(7) && hint
  {
    var p := new PlayerInteraction.Player(1, 0.5, true, false);
    p.OnTriggerEnter(PlayerInteraction.Collider(2, Some(7)));
    p.OnTriggerExit(PlayerInteraction.Collider(3, Some(8)));
    p.OnTriggerExit(PlayerInteraction.Collider(1, Some(7)));
    current, hint := p.currentInteractable, p.hintActive;
  }

  /** Two activations of a portal before its delay is over schedule two
      loads; nothing loads before the delay, and both load after it. */
  method PortalAccumulates() returns (early: seq<string>, late: seq<string>)
    ensures early == [] && late == ["Forest", "Forest"]
  {
    var scenes := new SceneManager();
    var portal := NewInteractable(ScenePortalAction("Forest", 2.0), "Портал", "F");
    portal.Interact(null, 0.0);
    portal.Interact(null, 0.5);
    assert portal.pendingLoads == [2.0, 2.5];
    portal.ResumeLoads(1.0, scenes);
    assert InteractableScenePortal.Due([2.0, 2.5], 1.0) == [];
    early := scenes.loaded;
    assert portal.pendingLoads == [2.0, 2.5];
    portal.ResumeLoads(3.0, scenes);
    assert InteractableScenePortal.Due([2.0, 2.5], 3.0) == [2.0, 2.5];
    late := scenes.loaded;
  }

  /** A portal without a scene name schedules nothing. */
  method PortalWithoutScene() returns (pending: seq<real>)
    ensures pending == []
  {
    var portal := NewInteractable(ScenePortalAction("", 1.0), "Портал", "F");
    portal.Interact(null, 0.0);
    pending := portal.pendingLoads;
  }

  /** Toggling the crosshair twice restores its flag and image. */
  method ToggleTwice(c: CrosshairController.Crosshair)
    requires c.Valid()
    modifies c, c.cursor
    ensures c.Valid() && c.isActive == old(c.isActive) && c.imageEnabled == old(c.imageEnabled)
  {
    c.ToggleCrosshair();
    c.ToggleCrosshair();
  }

  /** The crosshair starts hidden with the cursor free and visible; gameplay
      locks and hides the cursor. */
  method CrosshairLifecycle() returns (start: CrosshairController.CursorState, playing: CrosshairController.CursorState,
                                       active: bool)
    ensures start == CrosshairController.CursorState(CrosshairController.Unlocked, true)
    ensures playing == CrosshairController.CursorState(CrosshairController.Locked, false) && active
  {
    var cursor := new CrosshairController.Cursor(CrosshairController.CursorState(CrosshairController.Confined, false));
    var c := new CrosshairController.Crosshair(true, true, CrosshairController.Locked, true, cursor, true);
    start := cursor.state;
    c.EnableForGameplay();
    playing, active := cursor.state, c.imageEnabled;
  }

  /** Walking from location A into B and then out of A clears the target,
      although the player is still inside B, so Enter loads nothing. */
  method WorldMapOverlap() returns (button: bool, loaded: seq<string>)
    ensures !button && loaded == []
  {
    var scenes := new SceneManager();
    var m := new PlayerOnWorldMapMoveToLocation.MoveToLocation(scenes, true);
    m.OnTriggerEnter(PlayerOnWorldMapMoveToLocation.MapCollider(1, Some(PlayerOnWorldMapMoveToLocation.LocationData("A"))));
    m.OnTriggerEnter(PlayerOnWorldMapMoveToLocation.MapCollider(2, Some(PlayerOnWorldMapMoveToLocation.LocationData("B"))));
    m.OnTriggerExit(PlayerOnWorldMapMoveToLocation.MapCollider(1, Some(PlayerOnWorldMapMoveToLocation.LocationData("A"))));
    m.EnterLocation();
    button, loaded := m.buttonActive, scenes.loaded;
  }

  /** Inside one location, Enter loads exactly its scene. */
  method WorldMapEnter() returns (loaded: seq<string>)
    ensures loaded == ["Village"]
  {
    var scenes := new SceneManager();
    var m := new PlayerOnWorldMapMoveToLocation.MoveToLocation(scenes, false);
    m.OnTriggerEnter(PlayerOnWorldMapMoveToLocation.MapCollider(1, None));
    m.OnTriggerEnter(PlayerOnWorldMapMoveToLocation.MapCollider(4, Some(PlayerOnWorldMapMoveToLocation.LocationData("Village"))));
    m.EnterLocation();
    loaded := scenes.loaded;
  }
}
