/** The crosshair (CrosshairController): the crosshair image's visibility,
    an active flag, and the operating-system cursor state it applies. */
module CrosshairController {

  /** Unity's CursorLockMode; `Unlocked` is `CursorLockMode.None`. */
  datatype CursorLockMode = Unlocked | Locked | Confined

  /** The global cursor: lock mode and visibility. */
  datatype CursorState = CursorState(lockState: CursorLockMode, visible: bool)

  /** The cursor after ApplyCursorState(active): an active crosshair locks
      and hides the cursor when `lockWhenActive` is set, an inactive one
      frees and shows it when `showWhenInactive` is set, and otherwise the
      cursor is left as it was. */
  function CursorAfter(active: bool, lockWhenActive: bool, lockMode: CursorLockMode, showWhenInactive: bool,
                       cursor: CursorState): (r: CursorState)
    ensures active && lockWhenActive ==> r.lockState == lockMode && !r.visible
    ensures !active && showWhenInactive ==> r.lockState == Unlocked && r.visible
    ensures (active && !lockWhenActive) || (!active && !showWhenInactive) ==> r == cursor
  {
    if active then
      if lockWhenActive then CursorState(lockMode, false) else cursor
    else
      if showWhenInactive then CursorState(Unlocked, true) else cursor
  }

  /** Applying the same state twice is applying it once. */
  lemma CursorAfterIdempotent(active: bool, lockWhenActive: bool, lockMode: CursorLockMode, showWhenInactive: bool,
                              cursor: CursorState)
    ensures var once := CursorAfter(active, lockWhenActive, lockMode, showWhenInactive, cursor);
            CursorAfter(active, lockWhenActive, lockMode, showWhenInactive, once) == once
  {
  }

  /** The engine's global cursor. */
  class Cursor {
    var state: CursorState

    constructor (state: CursorState)
      ensures this.state == state
    {
      this.state := state;
    }
  }

  class Crosshair {
    const hasImage: bool
    const lockCursorWhenActive: bool
    const cursorLockMode: CursorLockMode
    const showCursorWhenInactive: bool
    const cursor: Cursor

    var imageEnabled: bool
    var isActive: bool

    /** With an image, the image shows exactly when the crosshair is active. */
    ghost predicate Valid()
      reads this
    {
      hasImage ==> imageEnabled == isActive
    }

    /** Awake: hidden, with the inactive cursor state applied.  `hasImage`
        counts the lookup among the children when none was assigned. */
    constructor (hasImage: bool, lockCursorWhenActive: bool, cursorLockMode: CursorLockMode,
                 showCursorWhenInactive: bool, cursor: Cursor, imageEnabled: bool)
      modifies cursor
      ensures Valid() && !isActive && (hasImage ==> !this.imageEnabled)
      ensures this.hasImage == hasImage && this.lockCursorWhenActive == lockCursorWhenActive
      ensures this.cursorLockMode == cursorLockMode && this.showCursorWhenInactive == showCursorWhenInactive
      ensures this.cursor == cursor
      ensures cursor.state == CursorAfter(false, lockCursorWhenActive, cursorLockMode, showCursorWhenInactive, old(cursor.state))
    {
      this.hasImage := hasImage;
      this.lockCursorWhenActive := lockCursorWhenActive;
      this.cursorLockMode := cursorLockMode;
      this.showCursorWhenInactive := showCursorWhenInactive;
      this.cursor := cursor;
      this.imageEnabled := imageEnabled;
      isActive := false;
      new;
      if hasImage {
        this.imageEnabled := false;
      }
      ApplyCursorState(false);
    }

    method ApplyCursorState(active: bool)
      modifies cursor
      ensures cursor.state == CursorAfter(active, lockCursorWhenActive, cursorLockMode, showCursorWhenInactive, old(cursor.state))
    {
      if active {
        if lockCursorWhenActive {
          cursor.state := cursor.state.(lockState := cursorLockMode);
          cursor.state := cursor.state.(visible := false);
        }
      } else {
        if showCursorWhenInactive {
          cursor.state := cursor.state.(lockState := Unlocked);
          cursor.state := cursor.state.(visible := true);
        }
      }
    }

    method ShowCrosshair(show: bool)
      modifies this, cursor
      ensures Valid() && isActive == show
      ensures imageEnabled == (if hasImage then show else old(imageEnabled))
      ensures cursor.state == CursorAfter(show, lockCursorWhenActive, cursorLockMode, showCursorWhenInactive, old(cursor.state))
    {
      if hasImage {
        imageEnabled := show;
      }
      isActive := show;
      ApplyCursorState(show);
    }

    method EnableForGameplay()
      modifies this, cursor
      ensures Valid() && isActive && (hasImage ==> imageEnabled)
      ensures !hasImage ==> imageEnabled == old(imageEnabled)
      ensures cursor.state == CursorAfter(true, lockCursorWhenActive, cursorLockMode, showCursorWhenInactive, old(cursor.state))
    {
      ShowCrosshair(true);
    }

    method DisableForUI()
      modifies this, cursor
      ensures Valid() && !isActive && (hasImage ==> !imageEnabled)
      ensures !hasImage ==> imageEnabled == old(imageEnabled)
      ensures cursor.state == CursorAfter(false, lockCursorWhenActive, cursorLockMode, showCursorWhenInactive, old(cursor.state))
    {
      ShowCrosshair(false);
    }

    /** Flips the active flag and shows or hides the crosshair to match. */
    method ToggleCrosshair()
      modifies this, cursor
      ensures Valid() && isActive == !old(isActive)
      ensures imageEnabled == (if hasImage then !old(isActive) else old(imageEnabled))
      ensures cursor.state == CursorAfter(!old(isActive), lockCursorWhenActive, cursorLockMode, showCursorWhenInactive, old(cursor.state))
    {
      ShowCrosshair(!isActive);
    }
  }
}
