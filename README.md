# Proximity interaction, modelled in Dafny

This project models the proximity-interaction subsystem of a Unity game:
how the player comes into range of interactable objects, how those objects
are highlighted and labelled, how they are activated, and what the
activation does. It also models the crosshair and world-map toggles that
sit beside it. Each C# component becomes one Dafny module:

- `InteractionMenuUI` is the modal choice menu. It is a panel that is hidden
  or visible and holds three stored callbacks. Every `Show` replaces the
  click listeners of its present buttons, except a second button it leaves
  inactive, which keeps its old ones. The F key picks option 1 and Escape
  cancels.
- `InteractionHintUI` is the hint line: a visibility flag, an optional text
  replacement, and a background colour that is reset on hide.
- `InteractableBase` is the interactable object. It holds the baseline
  materials captured on `Awake`, the highlight toggle (an override material,
  or emission, plus an optional light), and `Interact`, dispatched on the
  concrete kind (menu, scene portal, vehicle seat). It also runs the portal's
  delayed scene loads.
- `InteractableWithMenu` builds the menu session a menu interactable opens.
- `InteractableScenePortal` gives the pending delayed loads, and which of
  them are due at a given time.
- `PlayerInteractionManager` is the hover registry. It has one hovered slot
  and composes the `[key] hint` label. Its unhover path hides the hint and
  closes the menu, and its Interact input activates the hovered object. The
  interactable's trigger forwarding to the registry is also here.
- `PlayerInteraction` is the second activation path. Trigger enter/exit keep
  one current target. The input only raises a request flag. `Update`
  consumes the flag once per frame, subject to a cooldown.
- `CrosshairController` is the crosshair image plus the operating-system
  cursor lock and visibility.
- `PlayerOnWorldMapMoveToLocation` is the world-map location trigger and
  its enter button.
- `Unity` holds the engine vocabulary: optional references, colours,
  materials, the callbacks handed to the menu and what each does, and the
  scene manager as a log of requested loads.
- `Scenarios` runs concrete call sequences on fresh objects.

Engine services are plain state:

- A C# `null` reference is `Option.None` or a nullable class reference.
- The singletons (`InteractionHintUI.Instance`, `InteractionMenuUI.Instance`)
  are references given to the registry when it is constructed.
- Which inspector references are assigned is a constant flag per reference.
- A closure is a `Callback` value. The menu appends each callback it invokes
  to `fired`, and `Outcome` says what each callback does to the world.
- `SceneManager.LoadScene` appends to `SceneManager.loaded`.
- Time (`Time.time`) is a `real` parameter `now`.
- A `GetComponent` lookup is an input: the `Collider` and `MapCollider`
  values carry what the lookup finds.
- A string that the source only tests with `string.IsNullOrEmpty` is a
  `string`, with `""` for both null and empty. The hint's new text, where
  null and `""` behave differently, is an `Option<string>`. The menu's
  option 2 label is an `Option<string>` only to mirror its `= null` default;
  `Option2Offered` treats null and `""` alike, as the source does.

The C# interfaces `Interactable` and `IInteractable` have no behaviour of
their own:

- The concrete subclasses of `InteractableBase` are one class
  `Interactable` with a `Behaviour` value.
- An `IInteractable` on the `PlayerInteraction` path is an identity (a
  `nat`). Its `Interact()` calls are recorded as `activations`.
- `keyLabel` and `interactionType` are read or assigned on the base but
  never declared there. They are plain fields of `Interactable`.

The model follows the code where it departs from the evident design:

- Hovering a new object does not un-hover the previous one.
- `Hide` keeps the stored callbacks.
- Un-hovering any object hides the hint, even while another object is
  still the hovered one.
- F and Escape in the same frame fire both option 1 and cancel.
- Nothing cancels a portal's pending load.
- The cooldown of `PlayerInteraction` is measured from time 0. An
  activation inside the first `interactCooldown` seconds is therefore
  refused.
- Leaving any world-map location clears the target, even a location other
  than the recorded one.

## Model

| member | source | states |
|---|---|---|
| `Unity.Scale` | Assets/Scripts/UI/InteractableBase.cs:68 | `Color * float` scales every component, alpha included: intensity 1 leaves the colour as it is, intensity 0 gives transparent black |
| `Unity.Outcome` | Assets/Scripts/UI/InteractableWithMenu.cs:15-34 | a scene-load callback loads exactly its scene; a teleport moves the player exactly when a mover is found; the no-target, no-op and other callbacks change nothing |
| `Unity.NonEmpty` | Assets/Scripts/UI/InteractionMenuUI.cs:80 | `!string.IsNullOrEmpty`: a string counts exactly when it is neither null nor empty |
| `InteractionMenuUI.SlotOf` | Assets/Scripts/UI/InteractionMenuUI.cs:102-129 | the listener of button 1 reads option 1's slot (line 105), that of button 2 option 2's (line 116) and that of cancel the cancel slot (line 127) |
| `InteractionMenuUI.Invocations` | Assets/Scripts/UI/InteractionMenuUI.cs:99-130 | running a button's listeners fires at most one callback per listener |
| `InteractionMenuUI.SingleListenerFiresOwnSlot` | Assets/Scripts/UI/InteractionMenuUI.cs:102-129 | the single listener Show gives a button fires exactly its own stored callback, once, or nothing when that slot is empty |
| `InteractionMenuUI.InvocationsStep` | Assets/Scripts/UI/InteractionMenuUI.cs:99-130 | running one more listener adds exactly what that listener fires on its own to what the earlier ones fired |
| `InteractionMenuUI.KeyInvocations` | Assets/Scripts/UI/InteractionMenuUI.cs:40-63 | a hidden menu or a missing keyboard fires nothing; only option 1 and cancel can fire, at most two callbacks a frame; a frame with neither key fires nothing; F alone fires only option 1 (nothing when it is null); F fires option 1 first; F with Escape fires option 1 then cancel, or only the one of the two that is set; Escape alone, or with F and no option 1, fires only cancel |
| `InteractionMenuUI.SessionSlots` | Assets/Scripts/UI/InteractionMenuUI.cs:78-96 | option 1 and cancel are stored as given; option 2 is stored if and only if its label is non-empty and its callback non-null, and is otherwise null |
| `InteractionMenuUI.Menu.constructor` | Assets/Scripts/UI/InteractionMenuUI.cs:27-38 | Awake leaves the menu hidden (the panel inactive, transparent, not interactable, not blocking raycasts, when there is a root), with no callbacks and no script-added listeners |
| `InteractionMenuUI.Menu.SetVisible` | Assets/Scripts/UI/InteractionMenuUI.cs:156-165 | with a root, the panel's active flag, alpha, interactable and raycast flags all follow `v`, and `IsVisible` becomes `v`; without a root nothing changes; the callbacks, listeners and texts are untouched |
| `InteractionMenuUI.Menu.Hide` | Assets/Scripts/UI/InteractionMenuUI.cs:140-153 | afterwards the menu is not visible; the stored callbacks, listeners and texts are unchanged |
| `InteractionMenuUI.Menu.Show` | Assets/Scripts/UI/InteractionMenuUI.cs:66-137 | with a root the menu is visible; all three callbacks are overwritten with the new session's; button 2 is active exactly when option 2 is offered; each present button gets exactly one script-added listener, except an inactive button 2, which keeps its old listeners; the title is set where its text object exists; each button caption is set only where it exists and the panel was already shown (or there is no root), since the caption lookup at lines 74 and 85 runs before `SetVisible(true)` and finds nothing under an inactive panel; nothing fires |
| `InteractionMenuUI.Menu.Update` | Assets/Scripts/UI/InteractionMenuUI.cs:40-63 | the callbacks fired are exactly those `KeyInvocations` gives for the visibility before the frame and the stored callbacks; the menu closes when it was visible and F or Escape was pressed, and otherwise stays as it was; the callbacks stay stored |
| `InteractionMenuUI.Menu.RunListeners` | Assets/Scripts/UI/InteractionMenuUI.cs:102-129 | running listeners in order fires `Invocations` of them, reading the slots at run time; after at least one listener has run the menu is not visible, and with a root the panel is hidden; without a root the panel is untouched |
| `InteractionMenuUI.Menu.Click` | Assets/Scripts/UI/InteractionMenuUI.cs:99-130 | a click that can reach the button runs its listeners and hides the menu (without a root the buttons are never hidden, so clicks keep reaching them); a click on a hidden menu or an inactive button fires nothing and changes nothing |
| `InteractionMenuUI.Menu.IsVisible` | Assets/Scripts/UI/InteractionMenuUI.cs:150-153 | a menu without a root is never visible |
| `InteractionMenuUI.Menu.CaptionsFound` | Assets/Scripts/UI/InteractionMenuUI.cs:74-86 | a button's caption can be found exactly when there is no root or the menu is visible |
| `InteractionMenuUI.Menu.Listeners` | Assets/Scripts/UI/InteractionMenuUI.cs:99-130 | each button's `onClick` list is its own script-added listeners |
| `InteractionMenuUI.Menu.Clickable` | Assets/Scripts/UI/InteractionMenuUI.cs:156-165 | with a root a click lands only on a shown, interactable panel; the second button also has to be present and active |
| `InteractionMenuUI.Option2Offered` | Assets/Scripts/UI/InteractionMenuUI.cs:80 | option 2 is offered only with a non-empty label and a callback; a null or empty label, or a null callback, withholds it |
| `InteractionMenuUI.PanelFor` | Assets/Scripts/UI/InteractionMenuUI.cs:161-164 | the panel's active, interactable and raycast flags all equal `v`, and its alpha is 1 when shown and 0 when hidden |
| `InteractionHintUI.Hint.constructor` | Assets/Scripts/UI/InteractionHintUI.cs:24-32 | the presenter starts hidden, with alpha 0 when there is a root, the base background colour, and its text untouched |
| `InteractionHintUI.Hint.SetVisible` | Assets/Scripts/UI/InteractionHintUI.cs:42-49 | `visible` becomes `v`; alpha is 1 or 0 with a root; the text is replaced if and only if a text is given and there is a text object; hiding resets the background to the base colour, and showing leaves it |
| `InteractionHintUI.Hint.Update` | Assets/Scripts/UI/InteractionHintUI.cs:34-40 | while hidden nothing changes; while visible only the background takes the pulse colour |
| `InteractableWithMenu.MenuRequest` | Assets/Scripts/UI/InteractableWithMenu.cs:10-45 | the title is the hint text; option 1 is labelled "Переместиться" and teleports when there is a target, and is otherwise labelled "Нет места" and only reports it; option 2 and its label "Загрузить сцену" are passed if and only if a scene name is set, and option 2 loads that scene; cancel is a no-op |
| `InteractableWithMenu.Option2IffScene` | Assets/Scripts/UI/InteractableWithMenu.cs:29-44 | once stored by the menu, option 2 is offered (so button 2 is active) if and only if a scene name is set, and the stored slot is exactly the load of that scene or null |
| `InteractableWithMenu.OptionOutcomes` | Assets/Scripts/UI/InteractableWithMenu.cs:15-39 | chosen, option 1 moves the player to the target if there is one and a mover exists, and otherwise has no effect; option 2 loads exactly the configured scene; cancel has no effect |
| `InteractableScenePortal.Due` | Assets/Scripts/UI/InteractableScenePortal.cs:28-33 | the coroutines that resume at a time are pending ones whose wait is over by then |
| `InteractableScenePortal.Waiting` | Assets/Scripts/UI/InteractableScenePortal.cs:28-33 | the coroutines still waiting at a time are pending ones whose wait is not over |
| `InteractableScenePortal.Loads` | Assets/Scripts/UI/InteractableScenePortal.cs:32 | n resumed coroutines make n loads, each of the portal's scene |
| `InteractableScenePortal.DueWaitingPartition` | Assets/Scripts/UI/InteractableScenePortal.cs:25-33 | every pending coroutine either resumes or keeps waiting: none is lost and none resumes twice |
| `InteractableScenePortal.DueAppend` | Assets/Scripts/UI/InteractableScenePortal.cs:25-33 | coroutines started later do not change which earlier ones are due |
| `InteractableScenePortal.WaitingAppend` | Assets/Scripts/UI/InteractableScenePortal.cs:25-33 | coroutines started later do not change which earlier ones keep waiting, or their order |
| `InteractableScenePortal.DueWaitingStep` | Assets/Scripts/UI/InteractableScenePortal.cs:28-33 | looking at one more pending coroutine adds it to the due ones when its wait is over and to the waiting ones otherwise, leaving the rest as they were |
| `InteractableScenePortal.ResumesOnlyAfterDelay` | Assets/Scripts/UI/InteractableScenePortal.cs:28-33 | a coroutine started at `start` does not resume before `start + delayBeforeLoad`, and does resume once that time is reached |
| `InteractableScenePortal.InteractsAccumulate` | Assets/Scripts/UI/InteractableScenePortal.cs:18-33 | repeated activations before any delay is over add independent waiting coroutines, none cancelled and none resumed early |
| `InteractableScenePortal.AllWaiting` | Assets/Scripts/UI/InteractableScenePortal.cs:28-33 | coroutines whose resume times all lie ahead all keep waiting |
| `InteractableBase.Glow` | Assets/Scripts/UI/InteractableBase.cs:68 | the glow colour is the emission colour with every component, alpha included, multiplied by the intensity |
| `InteractableBase.Paint` | Assets/Scripts/UI/InteractableBase.cs:53-76 | with an override material a renderer gets it on enable and its saved original on disable; otherwise it keeps its own material, whose keyword follows the request and whose emission is the glow colour or black under emission highlighting, and which is untouched with neither strategy |
| `InteractableBase.Repaint` | Assets/Scripts/UI/InteractableBase.cs:53-76 | one material per renderer, each repainted on its own from its saved original and its current material |
| `InteractableBase.Toggle` | Assets/Scripts/UI/InteractableBase.cs:48-81 | afterwards the flag is the requested state; a request for the state in force changes nothing; the number of materials is kept; a present light follows an effective toggle; without a light the light flag is kept |
| `InteractableBase.ToggleIdempotent` | Assets/Scripts/UI/InteractableBase.cs:50 | asking twice for the same highlight state is asking once |
| `InteractableBase.OverrideRestoresBaseline` | Assets/Scripts/UI/InteractableBase.cs:53-57 | with an override material, enabling puts it on every renderer, disabling puts back exactly the saved originals, and enable-then-disable from the baseline returns to the baseline |
| `InteractableBase.EmissionRoundTrip` | Assets/Scripts/UI/InteractableBase.cs:59-76 | with emission highlighting the same materials are kept; enable-then-disable gives back the starting materials if and only if each had its emission keyword off and a black emission colour |
| `InteractableBase.StrategiesExclusive` | Assets/Scripts/UI/InteractableBase.cs:53-76 | with an override material each renderer holds the override or its saved original, never an edited emission; with neither strategy the materials do not change |
| `InteractableBase.Interactable.constructor` | Assets/Scripts/UI/InteractableBase.cs:27-34 | Awake captures one baseline material per renderer, equal to the renderer's material; the object starts unhighlighted |
| `InteractableBase.Interactable.SetHighlight` | Assets/Scripts/UI/InteractableBase.cs:48-81 | the new flag, materials and light are exactly `Toggle` of the old ones against the saved originals; the baselines, labels and pending loads are untouched |
| `InteractableBase.Interactable.ApplyOverride` | Assets/Scripts/UI/InteractableBase.cs:53-57 | with an override material, every renderer gets it on enable and gets back its own saved original on disable |
| `InteractableBase.Interactable.ApplyEmission` | Assets/Scripts/UI/InteractableBase.cs:59-76 | with emission highlighting, every renderer keeps its own material, with the keyword on and the emission at the glow colour on enable, or off and black on disable |
| `InteractableBase.Interactable.OnHoverEnter` | Assets/Scripts/UI/InteractableBase.cs:37-40 | hover enter is `SetHighlight(true)` |
| `InteractableBase.Interactable.OnHoverExit` | Assets/Scripts/UI/InteractableBase.cs:42-45 | hover exit is `SetHighlight(false)` |
| `InteractableBase.Interactable.Interact` | Assets/Scripts/UI/InteractableWithMenu.cs:10-45 | a menu interactable leaves the menu in the state `Show` leaves (`Menu.Opened`: panel, callbacks, captions, listeners) for the session `MenuRequest` builds, so button 2 is active exactly when a scene name is set; any other kind leaves the menu unchanged; a portal with a scene name adds exactly one coroutine resuming after its delay, and one without a scene schedules nothing (InteractableScenePortal.cs:18-26); a vehicle seat changes nothing |
| `InteractableBase.Interactable.ResumeLoads` | Assets/Scripts/UI/InteractableScenePortal.cs:28-33 | at a time, each coroutine whose wait is over loads the portal's scene and ends, and the others keep waiting in order |
| `PlayerInteractionManager.KeyOrDefault` | Assets/Scripts/UI/PlayerInteractionManager.cs:78 | the key label shown is never empty: the object's own when it has one, otherwise "F" |
| `PlayerInteractionManager.HintOrDefault` | Assets/Scripts/UI/PlayerInteractionManager.cs:79 | the hint shown is never empty: the object's own when it has one, otherwise "Взаимодействие" |
| `PlayerInteractionManager.HintLabel` | Assets/Scripts/UI/PlayerInteractionManager.cs:78-80 | the label is an opening bracket, the key in force, a closing bracket and a space, then the hint in force, and nothing else |
| `PlayerInteractionManager.HoverText` | Assets/Scripts/UI/PlayerInteractionManager.cs:72-81 | with no object the hint is "Нажмите F"; with one it holds the key and the hint in force at their places in the `[key] hint` layout |
| `PlayerInteractionManager.DefaultHintLabel` | Assets/Scripts/UI/PlayerInteractionManager.cs:78-80 | an object with neither a key label nor a hint text is labelled "[F] Взаимодействие" |
| `PlayerInteractionManager.IndexOf` | Assets/Scripts/UI/PlayerInteractionManager.cs:80 | reads back the label composed at lines 78-80 (the source itself searches nothing): finds the first occurrence of a character, or reports that there is none |
| `PlayerInteractionManager.ParseHintLabel` | Assets/Scripts/UI/PlayerInteractionManager.cs:80 | reads back the label composed at lines 78-80 (the source parses nothing): whatever it reads back is a key without a closing bracket and a hint that compose to the input |
| `PlayerInteractionManager.IndexOfPrefix` | Assets/Scripts/UI/PlayerInteractionManager.cs:80 | a fact for reading back the label composed at lines 78-80: the first closing bracket after a key without one is the one right after the key |
| `PlayerInteractionManager.HintLabelRoundTrip` | Assets/Scripts/UI/PlayerInteractionManager.cs:73-81 | reading a composed label back gives the key and hint in force, defaults included, when the key has no closing bracket |
| `PlayerInteractionManager.Manager.constructor` | Assets/Scripts/UI/PlayerInteractionManager.cs:17 | nothing is hovered at the start |
| `PlayerInteractionManager.Manager.OnObjectHovered` | Assets/Scripts/UI/PlayerInteractionManager.cs:68-89 | the object becomes the hovered one, whatever was hovered before; the hint is shown with the composed label ("Нажмите F" for no object); the object is highlighted; its labels and pending loads are untouched |
| `PlayerInteractionManager.Manager.OnObjectUnhovered` | Assets/Scripts/UI/PlayerInteractionManager.cs:91-108 | the slot is cleared only if it held this object; in every case the hint is hidden (its text kept); an open menu's panel is hidden (`PanelFor(false)`) and a closed one's is untouched, and the menu's callbacks, listeners, captions and button 2 are kept, with nothing fired; the object loses its highlight, its labels, kind and pending loads kept |
| `PlayerInteractionManager.Manager.OnInteractPerformed` | Assets/Scripts/UI/PlayerInteractionManager.cs:111-118 | the hovered object, if any, is activated, with no cooldown: a menu interactable leaves the menu in the state `Show` leaves for its session and a portal schedules its load; only the hovered object's pending loads and the menu may change, and with nothing hovered, or a hovered object that is not a menu interactable, the menu is unchanged |
| `PlayerInteractionManager.TriggerEnter` | Assets/Scripts/UI/InteractableBase.cs:89-93 | with a registry found above the collider, the object becomes hovered and highlighted, its labels, kind and pending loads kept, and the hint shows its composed label; without one nothing at all changes |
| `PlayerInteractionManager.TriggerExit` | Assets/Scripts/UI/InteractableBase.cs:95-99 | with a registry, the slot is cleared if it held the object and another hovered object stays hovered; the hint is hidden with its text kept; an open menu's panel is hidden (`PanelFor(false)`) and a closed one's is untouched, and the menu's callbacks, listeners, captions and button 2 are kept, with nothing fired; the object loses its highlight, its labels, kind and pending loads kept; without a registry nothing at all changes |
| `PlayerInteraction.Accepted` | Assets/Scripts/UI/PlayerInteraction.cs:87-103 | every accepted attempt is one of the attempts, and there are no more accepted than attempts; a first attempt a cooldown or more after the last activation is accepted first |
| `PlayerInteraction.AcceptedSnoc` | Assets/Scripts/UI/PlayerInteraction.cs:95-98 | one more attempt is accepted exactly when it is a cooldown or more after the last accepted attempt (or the starting last activation when none was accepted), so each accepted attempt becomes the new last activation; the earlier verdicts do not change |
| `PlayerInteraction.AcceptedStep` | Assets/Scripts/UI/PlayerInteraction.cs:95-98 | the same step over a prefix of the attempts: the filter of `attempts[..i+1]` extends that of `attempts[..i]` by `attempts[i]` exactly when it passes the cooldown against the last accepted one |
| `PlayerInteraction.CooledDown` | Assets/Scripts/UI/PlayerInteraction.cs:95 | an attempt passes exactly when at least the cooldown has elapsed since the last activation |
| `PlayerInteraction.AcceptedSpaced` | Assets/Scripts/UI/PlayerInteraction.cs:95-98 | whatever the attempts, the accepted ones are each at least a cooldown after the one before |
| `PlayerInteraction.SpacedCons` | Assets/Scripts/UI/PlayerInteraction.cs:95-98 | an activation a cooldown after the last one extends a spaced run |
| `PlayerInteraction.SpacedApart` | Assets/Scripts/UI/PlayerInteraction.cs:95-98 | any two activations of a spaced run are at least a cooldown apart |
| `PlayerInteraction.AtMostOneInWindow` | Assets/Scripts/UI/PlayerInteraction.cs:95-98 | with a positive cooldown, no time window shorter than the cooldown holds two accepted activations |
| `PlayerInteraction.Times` | Assets/Scripts/UI/PlayerInteraction.cs:98 | the times of the activations, one per activation, in order |
| `PlayerInteraction.Player.constructor` | Assets/Scripts/UI/PlayerInteraction.cs:20-49 | Awake hides the hint when there is one; there is no target, no request, no activation, and the last activation time is 0 |
| `PlayerInteraction.Player.OnInteractPerformed` | Assets/Scripts/UI/PlayerInteraction.cs:73-76 | the input only raises the request flag |
| `PlayerInteraction.Player.Update` | Assets/Scripts/UI/PlayerInteraction.cs:78-85 | the request is consumed; without one nothing is activated; with one, the current target is activated exactly once when the cooldown is over, however many inputs raised it; activations stay a cooldown apart |
| `PlayerInteraction.Player.TryInteract` | Assets/Scripts/UI/PlayerInteraction.cs:87-103 | with no target nothing changes; within the cooldown nothing changes; otherwise the time is stamped and the target activated once; the activation times grow exactly as `Accepted` says |
| `PlayerInteraction.Player.SetInteractHintVisible` | Assets/Scripts/UI/PlayerInteraction.cs:157-169 | the hint's active flag becomes the requested one when there is a hint |
| `PlayerInteraction.Player.OnTriggerEnter` | Assets/Scripts/UI/PlayerInteraction.cs:105-128 | the player's own colliders are ignored; an interactable found with the collider becomes the current target (last wins) and the hint shows; otherwise nothing changes |
| `PlayerInteraction.Player.OnTriggerExit` | Assets/Scripts/UI/PlayerInteraction.cs:130-155 | the target is cleared and the hint hidden only when the leaving collider's interactable is the current target itself; the player's own colliders, a null target and other colliders change nothing |
| `Unity.SceneManager.LoadScene` | Assets/Scripts/UI/InteractableScenePortal.cs:32 | a load request is recorded once, after every earlier one |
| `CrosshairController.Cursor.constructor` | Assets/Scripts/UI/CrosshairController.cs:70-88 | the engine's global cursor, which `ApplyCursorState` writes, holds the given lock mode and visibility |
| `CrosshairController.CursorAfter` | Assets/Scripts/UI/CrosshairController.cs:70-88 | active with locking: the configured lock mode and a hidden cursor; inactive with showing: unlocked and visible; otherwise the cursor is untouched |
| `CrosshairController.CursorAfterIdempotent` | Assets/Scripts/UI/CrosshairController.cs:70-88 | applying the same cursor state twice is applying it once |
| `CrosshairController.Crosshair.constructor` | Assets/Scripts/UI/CrosshairController.cs:31-42 | Awake leaves the crosshair inactive and its image hidden, with the inactive cursor state applied |
| `CrosshairController.Crosshair.ApplyCursorState` | Assets/Scripts/UI/CrosshairController.cs:70-88 | the cursor becomes `CursorAfter` of its old state |
| `CrosshairController.Crosshair.ShowCrosshair` | Assets/Scripts/UI/CrosshairController.cs:47-52 | the active flag, and the image when there is one, become the requested state, and the matching cursor state is applied |
| `CrosshairController.Crosshair.EnableForGameplay` | Assets/Scripts/UI/CrosshairController.cs:57-60 | shows the crosshair and applies the active cursor state; without an image the image flag is untouched |
| `CrosshairController.Crosshair.DisableForUI` | Assets/Scripts/UI/CrosshairController.cs:65-68 | hides the crosshair and applies the inactive cursor state; without an image the image flag is untouched |
| `CrosshairController.Crosshair.ToggleCrosshair` | Assets/Scripts/UI/CrosshairController.cs:91-94 | the active flag is negated, the image follows it, and the cursor state for the new flag is applied |
| `PlayerOnWorldMapMoveToLocation.MoveToLocation.constructor` | Assets/Scripts/PlayerOnWorldMap_MoveToLocation.cs:12-16 | the enter button starts hidden, with no target |
| `PlayerOnWorldMapMoveToLocation.MoveToLocation.OnTriggerEnter` | Assets/Scripts/PlayerOnWorldMap_MoveToLocation.cs:18-28 | a collider with location data sets the target scene and location and shows the button; other colliders change nothing |
| `PlayerOnWorldMapMoveToLocation.MoveToLocation.OnTriggerExit` | Assets/Scripts/PlayerOnWorldMap_MoveToLocation.cs:30-39 | leaving any collider with location data clears the target and hides the button, even when it is not the recorded location; other colliders change nothing |
| `PlayerOnWorldMapMoveToLocation.MoveToLocation.EnterLocation` | Assets/Scripts/PlayerOnWorldMap_MoveToLocation.cs:55-61 | a scene is loaded if and only if the target scene name is non-empty, and it is exactly that name |
| `Scenarios.OverlappingHovers` | Assets/Scripts/UI/PlayerInteractionManager.cs:68-108 | hover A, hover B, leave A: B stays hovered and highlighted, A is unhighlighted, but the hint is hidden while B is still in range |
| `Scenarios.HoverLabel` | Assets/Scripts/UI/PlayerInteractionManager.cs:72-84 | an object with no key label and no hint text shows "[F] Взаимодействие" |
| `Scenarios.NewestSessionWins` | Assets/Scripts/UI/InteractionMenuUI.cs:40-96 | after two sessions, F fires only the newest option 1 and closes the menu, and a second F on the closed menu fires nothing |
| `Scenarios.BothKeysOneFrame` | Assets/Scripts/UI/InteractionMenuUI.cs:48-61 | F and Escape in one frame fire option 1 and then cancel |
| `Scenarios.ClickThenStrayClick` | Assets/Scripts/UI/InteractionMenuUI.cs:113-147 | clicking option 2 fires it once and closes the menu; a later click on cancel does not reach the hidden panel; the cancel callback is still stored |
| `Scenarios.MenuWithoutScene` | Assets/Scripts/UI/InteractableWithMenu.cs:37-44 | a menu interactable without a scene, activated through the registry, stores no option 2 and deactivates button 2, and F without a teleport target has no effect |
| `Scenarios.ClickWithoutRoot` | Assets/Scripts/UI/InteractionMenuUI.cs:99-165 | a menu without a root panel is never hidden, so clicking option 1 still fires the stored callback |
| `Scenarios.ActivateThenClick` | Assets/Scripts/UI/InteractableWithMenu.cs:10-45 | activating a menu interactable without a teleport target opens the hidden menu without finding the option 1 caption, so it keeps its old text; a second activation on the open menu writes "Нет места"; clicking option 1 then only reports that there is no target and closes the menu |
| `Scenarios.CooldownFromStart` | Assets/Scripts/UI/PlayerInteraction.cs:73-103 | a request in the first cooldown after time 0 is consumed without activating; a later burst of requests activates the target exactly once |
| `Scenarios.ExitOtherKeepsTarget` | Assets/Scripts/UI/PlayerInteraction.cs:130-155 | leaving another object's collider, or the player's own, keeps the current target and the hint |
| `Scenarios.PortalAccumulates` | Assets/Scripts/UI/InteractableScenePortal.cs:18-33 | two activations of a portal load nothing before the delay and load its scene twice after it |
| `Scenarios.PortalWithoutScene` | Assets/Scripts/UI/InteractableScenePortal.cs:20-24 | a portal without a scene name schedules nothing |
| `Scenarios.ToggleTwice` | Assets/Scripts/UI/CrosshairController.cs:91-94 | toggling the crosshair twice restores its active flag and image |
| `Scenarios.CrosshairLifecycle` | Assets/Scripts/UI/CrosshairController.cs:31-60 | with the default settings the crosshair starts with the cursor free and visible, and gameplay shows it and locks and hides the cursor |
| `Scenarios.WorldMapOverlap` | Assets/Scripts/PlayerOnWorldMap_MoveToLocation.cs:18-61 | entering A, then B, then leaving A hides the button and makes Enter load nothing, although the player is inside B |
| `Scenarios.WorldMapEnter` | Assets/Scripts/PlayerOnWorldMap_MoveToLocation.cs:18-61 | a collider without location data changes nothing, and inside one location Enter loads exactly its scene |

## Left out

- `InteractableBase.Interactable.Interact`: with no menu instance the C# code throws a NullReferenceException when it calls `Show`. The model returns without changing anything.
- `InteractableWithMenu.MenuRequest`: the teleport target's position is taken when the session is built. The C# closure reads `teleportTarget.position` when it runs.
- The pulse animation of the hint (a sine of the time and `Color.Lerp`) is a colour given to `InteractionHintUI.Hint.Update` as a parameter. Floating-point colour maths is not modelled.
- `UpdateButtonPosition` and the world map's `Update` are camera projection, so they are left out. The target location is kept only as an identity.
- Materials are values. Aliasing between a renderer's material instance and the saved original is not modelled. The C# code edits `renderers[i].material` in place and saves the instance Unity creates on first access.
- The highlight settings are fixed for an object's lifetime. In the C# code they are public fields an inspector or script could change.
- Singleton set-up is left out: `Instance` assignment and `Destroy` of duplicates. So are input subscribe/unsubscribe (`OnEnable`/`OnDisable`), `Debug.Log` output, and the trigger-collider check in `PlayerInteraction.Awake`, which only logs.
- Scene teardown is left out. A real `LoadScene` destroys the objects of the old scene along with their pending coroutines.
- `GetComponentInParent`, `GetComponentInChildren`, `GetComponent` and `FindObjectOfType` are given results. The model does not search a hierarchy.
- `VehicleSeatInteractable` and `SimpleInteractable` have an `Interact` that only logs. The editor-only `Reset` of the seat and of the crosshair is left out. The `InteractionType` value is kept but nothing reads it.
- `PlayerMover.TeleportTo` is the effect `TeleportTo(position)`. The lerp it runs is not modelled.
- `SceneManager.LoadScene` only records the scene name; loading itself is not modelled.
- The active flags of the first and cancel buttons and of the caption objects are not modelled: they are taken to be active, so a caption is found exactly when the panel above it is active (or there is no root panel).
- Button `onClick` listeners set in the inspector are not modelled. `RemoveAllListeners` removes only the listeners added from script, so inspector entries would survive `Show` and still run. `Bindings` holds the script-added listeners only.
- Frame order between components is not modelled. Each Unity message is one method call, and the scenarios choose the order. The most visible consequence: the Interact action is the F key, and its `performed` callback runs before `Update` in the same frame. So the F press that opens a menu through `OnInteractPerformed` and `Show` would also be seen by the menu's `fKey.wasPressedThisFrame`, and option 1 would fire at once. `Scenarios.MenuWithoutScene` makes these two calls in this order. The model does not tie the two calls to one key press.
