/** The modal choice menu (InteractionMenuUI): a panel that is either hidden
    or visible, three stored callbacks, three buttons whose click listeners
    are rebound on every Show, and the F / Escape hot keys. */
module InteractionMenuUI {
  import opened Unity

  datatype Button = Option1Button | Option2Button | CancelButton

  /** A click listener registered by Show.  Each one is the closure
      "invoke the stored callback of my slot if it is set, then Hide()";
      it reads the slot when it runs, not when it was registered. */
  datatype Listener = InvokeOption1 | InvokeOption2 | InvokeCancel

  /** The callback a listener invokes, given the three stored slots. */
  function SlotOf(l: Listener, o1: Option<Callback>, o2: Option<Callback>, c: Option<Callback>): (r: Option<Callback>)
    ensures l == InvokeOption1 ==> r == o1
    ensures l == InvokeOption2 ==> r == o2
    ensures l == InvokeCancel ==> r == c
  {
    match l
    case InvokeOption1 => o1
    case InvokeOption2 => o2
    case InvokeCancel => c
  }

  /** The callbacks a click fires when the button's listeners run in order:
      each listener contributes its slot's callback when that slot is set. */
  function Invocations(ls: seq<Listener>, o1: Option<Callback>, o2: Option<Callback>, c: Option<Callback>): (r: seq<Callback>)
    ensures |r| <= |ls|
  {
    if ls == [] then []
    else
      var s := SlotOf(ls[|ls| - 1], o1, o2, c);
      Invocations(ls[..|ls| - 1], o1, o2, c) + (if s.Some? then [s.value] else [])
  }

  /** A button carrying the single listener Show gives it fires exactly its
      own stored callback, once, or nothing when that slot is empty. */
  lemma SingleListenerFiresOwnSlot(l: Listener, o1: Option<Callback>, o2: Option<Callback>, c: Option<Callback>)
    ensures Invocations([l], o1, o2, c) == (if SlotOf(l, o1, o2, c).Some? then [SlotOf(l, o1, o2, c).value] else [])
  {
    assert [l][..0] == [];
  }

  /** Running one more listener adds what that listener fires on its own. */
  lemma InvocationsStep(ls: seq<Listener>, i: nat, o1: Option<Callback>, o2: Option<Callback>, c: Option<Callback>)
    requires i < |ls|
    ensures Invocations(ls[..i + 1], o1, o2, c)
            == Invocations(ls[..i], o1, o2, c) + (if SlotOf(ls[i], o1, o2, c).Some? then [SlotOf(ls[i], o1, o2, c).value] else [])
  {
    assert ls[..i + 1][..i] == ls[..i];
  }

  /** Option 2 is offered only with a non-empty label and a callback. */
  predicate Option2Offered(text: Option<string>, cb: Option<Callback>)
    ensures Option2Offered(text, cb) ==> text.Some? && |text.value| > 0 && cb.Some?
    ensures text == None || text == Some("") || cb == None ==> !Option2Offered(text, cb)
  {
    NonEmpty(text) && cb.Some?
  }

  /** The callbacks one Update frame fires: nothing while hidden or without
      a keyboard; otherwise F fires option 1 and Escape fires cancel, and the
      Escape test does not look at visibility again, so both keys in one
      frame fire both callbacks. */
  function KeyInvocations(visible: bool, keyboard: bool, fPressed: bool, escPressed: bool,
                          o1: Option<Callback>, c: Option<Callback>): (r: seq<Callback>)
    ensures !visible || !keyboard ==> r == []
    ensures |r| <= 2
    ensures forall cb :: cb in r ==> Some(cb) == o1 || Some(cb) == c
    ensures visible && keyboard && fPressed && o1.Some? ==> r != [] && r[0] == o1.value
    ensures visible && keyboard && fPressed && escPressed && o1.Some? && c.Some? ==> r == [o1.value, c.value]
    ensures visible && keyboard && !fPressed && escPressed ==> r == (if c.Some? then [c.value] else [])
    ensures !fPressed && !escPressed ==> r == []
    ensures visible && keyboard && fPressed && !escPressed ==> r == (if o1.Some? then [o1.value] else [])
    ensures visible && keyboard && escPressed && o1.None? ==> r == (if c.Some? then [c.value] else [])
    ensures visible && keyboard && fPressed && o1.Some? && c.None? ==> r == [o1.value]
  {
    if !visible || !keyboard then []
    else
      (if fPressed && o1.Some? then [o1.value] else [])
      + (if escPressed && c.Some? then [c.value] else [])
  }


  /** The root CanvasGroup and the active flag of its GameObject. */
  datatype Panel = Panel(active: bool, alpha: real, interactable: bool, blocksRaycasts: bool)

  /** The panel as SetVisible(v) leaves it. */
  function PanelFor(v: bool): (p: Panel)
    ensures p.active == v && p.interactable == v && p.blocksRaycasts == v
    ensures 0.0 <= p.alpha <= 1.0 && (p.alpha == 1.0 <==> v)
    ensures !v ==> p.alpha == 0.0
  {
    Panel(v, if v then 1.0 else 0.0, v, v)
  }

  /** The three stored callbacks of a session. */
  datatype Slots = Slots(option1: Option<Callback>, option2: Option<Callback>, cancel: Option<Callback>)

  /** The onClick listener lists of the three buttons. */
  datatype Bindings = Bindings(option1: seq<Listener>, option2: seq<Listener>, cancel: seq<Listener>)

  /** The title and the two button captions. */
  datatype Texts = Texts(title: string, option1: string, option2: string)

  /** The callbacks Show stores: option 1 and cancel as given, option 2 only
      when it is offered, and otherwise none. */
  function SessionSlots(option1Callback: Option<Callback>, option2Label: Option<string>,
                        option2Callback: Option<Callback>, cancelCallback: Option<Callback>): (s: Slots)
    ensures s.option1 == option1Callback && s.cancel == cancelCallback
    ensures s.option2.Some? <==> NonEmpty(option2Label) && option2Callback.Some?
    ensures s.option2.Some? ==> s.option2 == option2Callback
  {
    Slots(option1Callback, if Option2Offered(option2Label, option2Callback) then option2Callback else None, cancelCallback)
  }

  class Menu {
    // Which inspector references are assigned (`root` counting Awake's own
    // lookup); a caption is the TextMeshPro child of its button.
    const hasRoot: bool
    const hasTitleText: bool
    const hasButton1: bool
    const hasButton2: bool
    const hasButtonCancel: bool
    const hasLabel1: bool
    const hasLabel2: bool

    var panel: Panel
    var texts: Texts
    var button2Active: bool
    var slots: Slots
    var bindings: Bindings

    /** Every callback the menu has invoked, in order. */
    var fired: seq<Callback>

    /** Visible: there is a root and its GameObject is active. */
    predicate IsVisible()
      reads this
      ensures IsVisible() ==> hasRoot
    {
      hasRoot && panel.active
    }

    /** The script-added onClick listeners of a button. */
    function Listeners(b: Button): (r: seq<Listener>)
      reads this
      ensures b == Option1Button ==> r == bindings.option1
      ensures b == Option2Button ==> r == bindings.option2
      ensures b == CancelButton ==> r == bindings.cancel
    {
      match b
      case Option1Button => bindings.option1
      case Option2Button => bindings.option2
      case CancelButton => bindings.cancel
    }

    /** GetComponentInChildren finds a button's caption only on an active
        object, so while a root panel is inactive the captions under it
        cannot be found. */
    predicate CaptionsFound(): (r: bool)
      reads this
      ensures r <==> !hasRoot || IsVisible()
    {
      !hasRoot || panel.active
    }

    /** A click reaches a button only when it exists and is active and
        interactable in the hierarchy: with a root, the panel is shown and
        interactable (without one, SetVisible never hides the buttons); for
        the second button, that button is active too. */
    predicate Clickable(b: Button): (r: bool)
      reads this
      ensures r && hasRoot ==> IsVisible() && panel.interactable
      ensures r && b == Option2Button ==> hasButton2 && button2Active
    {
      (hasRoot ==> IsVisible() && panel.interactable) &&
      match b
      case Option1Button => hasButton1
      case Option2Button => hasButton2 && button2Active
      case CancelButton => hasButtonCancel
    }

    /** Awake: the panel starts hidden, with no callbacks and no listeners. */
    constructor (hasRoot: bool, hasTitleText: bool, hasButton1: bool, hasButton2: bool, hasButtonCancel: bool,
                 hasLabel1: bool, hasLabel2: bool, button2Active: bool)
      ensures this.hasRoot == hasRoot && this.hasTitleText == hasTitleText
      ensures this.hasButton1 == hasButton1 && this.hasButton2 == hasButton2 && this.hasButtonCancel == hasButtonCancel
      ensures this.hasLabel1 == hasLabel1 && this.hasLabel2 == hasLabel2
      ensures this.button2Active == button2Active
      ensures !IsVisible() && (hasRoot ==> panel == PanelFor(false))
      ensures slots == Slots(None, None, None)
      ensures bindings == Bindings([], [], [])
      ensures fired == []
    {
      this.hasRoot := hasRoot;
      this.hasTitleText := hasTitleText;
      this.hasButton1 := hasButton1;
      this.hasButton2 := hasButton2;
      this.hasButtonCancel := hasButtonCancel;
      this.hasLabel1 := hasLabel1;
      this.hasLabel2 := hasLabel2;
      this.button2Active := button2Active;
      panel := PanelFor(false);
      texts := Texts("", "", "");
      slots := Slots(None, None, None);
      bindings := Bindings([], [], []);
      fired := [];
      new;
      SetVisible(false);
    }

    /** Shows or hides the panel through its CanvasGroup; without a root
        nothing changes. */
    method SetVisible(v: bool)
      modifies this
      ensures panel == (if hasRoot then PanelFor(v) else old(panel))
      ensures hasRoot ==> IsVisible() == v
      ensures texts == old(texts) && button2Active == old(button2Active)
      ensures slots == old(slots) && bindings == old(bindings) && fired == old(fired)
    {
      if !hasRoot {
        return;
      }
      panel := PanelFor(v);
    }

    /** Hides the panel.  The stored callbacks stay as they are. */
    method Hide()
      modifies this
      ensures !IsVisible()
      ensures panel == (if hasRoot then PanelFor(false) else old(panel))
      ensures texts == old(texts) && button2Active == old(button2Active)
      ensures slots == old(slots) && bindings == old(bindings) && fired == old(fired)
    {
      SetVisible(false);
    }

    /** The menu as Show leaves it, compared with before the call: with a
        root the panel is shown, and without one it is as it was; the
        callbacks are the session's; button 2 is active exactly when option
        2 is offered; the title is set where its text object exists, and
        each caption where it exists and the lookup could find it before
        the panel was shown; each present button has exactly the one listener
        Show added, except an inactive second button, which keeps its old
        ones; nothing has fired. */
    twostate predicate Opened(title: string, option1Label: string, option1Callback: Option<Callback>,
                              option2Label: Option<string>, option2Callback: Option<Callback>,
                              cancelCallback: Option<Callback>)
      reads this
    {
      && panel == (if hasRoot then PanelFor(true) else old(panel))
      && slots == SessionSlots(option1Callback, option2Label, option2Callback, cancelCallback)
      && button2Active == (if hasButton2 then Option2Offered(option2Label, option2Callback) else old(button2Active))
      && texts.title == (if hasTitleText then title else old(texts.title))
      && texts.option1 == (if hasButton1 && hasLabel1 && old(CaptionsFound()) then option1Label else old(texts.option1))
      && texts.option2 == (if hasButton2 && hasLabel2 && old(CaptionsFound()) && Option2Offered(option2Label, option2Callback)
                           then option2Label.value else old(texts.option2))
      && bindings.option1 == (if hasButton1 then [InvokeOption1] else old(bindings.option1))
      && bindings.option2 == (if hasButton2 && button2Active then [InvokeOption2] else old(bindings.option2))
      && bindings.cancel == (if hasButtonCancel then [InvokeCancel] else old(bindings.cancel))
      && fired == old(fired)
    }

    /** Opens a session: stores the callbacks (option 2 only when it is
        offered), sets the texts, replaces the click listeners of every
        present button except an inactive second one, and shows the panel. */
    method Show(title: string, option1Label: string, option1Callback: Option<Callback>,
                option2Label: Option<string>, option2Callback: Option<Callback>, cancelCallback: Option<Callback>)
      modifies this
      ensures Opened(title, option1Label, option1Callback, option2Label, option2Callback, cancelCallback)
    {
      var offered := Option2Offered(option2Label, option2Callback);
      // The captions are looked up before the panel is shown.
      var found := CaptionsFound();
      texts := Texts(if hasTitleText then title else texts.title,
                     if hasButton1 && hasLabel1 && found then option1Label else texts.option1,
                     if hasButton2 && hasLabel2 && found && offered then option2Label.value else texts.option2);
      button2Active := if hasButton2 then offered else button2Active;
      slots := SessionSlots(option1Callback, option2Label, option2Callback, cancelCallback);
      // Old listeners are removed before the one new listener is added; an
      // inactive second button keeps whatever it had.
      bindings := Bindings(if hasButton1 then [InvokeOption1] else bindings.option1,
                           if hasButton2 && button2Active then [InvokeOption2] else bindings.option2,
                           if hasButtonCancel then [InvokeCancel] else bindings.cancel);
      SetVisible(true);
    }

    /** One frame of Update with the given key edges. */
    method Update(keyboard: bool, fPressed: bool, escPressed: bool)
      modifies this
      ensures fired == old(fired) + KeyInvocations(old(IsVisible()), keyboard, fPressed, escPressed,
                                                   old(slots.option1), old(slots.cancel))
      ensures old(IsVisible()) && keyboard && (fPressed || escPressed) ==> !IsVisible() && panel == PanelFor(false)
      ensures !(old(IsVisible()) && keyboard && (fPressed || escPressed)) ==> panel == old(panel)
      ensures texts == old(texts) && button2Active == old(button2Active)
      ensures slots == old(slots) && bindings == old(bindings)
    {
      if !IsVisible() {
        return;
      }
      if keyboard {
        if fPressed {
          if slots.option1.Some? {
            fired := fired + [slots.option1.value];
          }
          Hide();
        }
        if escPressed {
          if slots.cancel.Some? {
            fired := fired + [slots.cancel.value];
          }
          Hide();
        }
      }
    }

    /** Runs a button's listeners in order: each invokes its slot's callback
        when that slot is set and then hides the panel. */
    method RunListeners(ls: seq<Listener>)
      modifies this
      ensures fired == old(fired) + Invocations(ls, slots.option1, slots.option2, slots.cancel)
      ensures panel == (if hasRoot && ls != [] then PanelFor(false) else old(panel))
      ensures ls != [] ==> !IsVisible()
      ensures texts == old(texts) && button2Active == old(button2Active)
      ensures slots == old(slots) && bindings == old(bindings)
    {
      var i := 0;
      while i < |ls|
        invariant 0 <= i <= |ls|
        invariant fired == old(fired) + Invocations(ls[..i], slots.option1, slots.option2, slots.cancel)
        invariant panel == (if hasRoot && i > 0 then PanelFor(false) else old(panel))
        invariant i > 0 ==> !IsVisible()
        invariant texts == old(texts) && button2Active == old(button2Active)
        invariant slots == old(slots) && bindings == old(bindings)
      {
        var s := SlotOf(ls[i], slots.option1, slots.option2, slots.cancel);
        if s.Some? {
          fired := fired + [s.value];
        }
        Hide();
        InvocationsStep(ls, i, slots.option1, slots.option2, slots.cancel);
        i := i + 1;
      }
      assert ls[..i] == ls;
    }

    /** A mouse click on button `b`: when the click can reach the button,
        its listeners run. */
    method Click(b: Button)
      modifies this
      ensures fired == old(fired) + (if old(Clickable(b))
                                     then Invocations(old(Listeners(b)), slots.option1, slots.option2, slots.cancel)
                                     else [])
      ensures old(Clickable(b)) && old(Listeners(b)) != [] ==> !IsVisible()
      ensures panel == (if hasRoot && old(Clickable(b)) && old(Listeners(b)) != [] then PanelFor(false) else old(panel))
      ensures texts == old(texts) && button2Active == old(button2Active)
      ensures slots == old(slots) && bindings == old(bindings)
    {
      if !Clickable(b) {
        return;
      }
      RunListeners(Listeners(b));
    }
  }
}
