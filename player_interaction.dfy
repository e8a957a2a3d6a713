/** The alternate activation path (PlayerInteraction): trigger enter/exit
    keep one current IInteractable, the Interact input only raises a request
    flag, and Update consumes the flag once per frame and activates the
    current target when the cooldown since the last activation is over. */
module PlayerInteraction {
  import opened Unity

  /** The IInteractable found on or around a collider, by identity. */
  type TargetRef = nat

  /** A collider seen by the player's trigger: its GameObject, and the
      IInteractable found in its parents or else its children. */
  datatype Collider = Collider(gameObject: nat, interactable: Option<TargetRef>)

  /** One call of Interact() on a target, at a time. */
  datatype Activation = Activation(time: real, target: TargetRef)

  /** An attempt at time `now` passes the cooldown unless less than
      `cooldown` has elapsed since `last`. */
  predicate CooledDown(now: real, last: real, cooldown: real): (r: bool)
    ensures r <==> last + cooldown <= now
  {
    !(now - last < cooldown)
  }

  /** The attempt times that pass the cooldown, in order, starting from the
      last activation time `last`: each accepted attempt becomes the new
      last activation. */
  function Accepted(attempts: seq<real>, last: real, cooldown: real): (r: seq<real>)
    ensures |r| <= |attempts|
    ensures forall t :: t in r ==> t in attempts
    ensures attempts != [] && CooledDown(attempts[0], last, cooldown) ==> r != [] && r[0] == attempts[0]
  {
    if attempts == [] then []
    else if CooledDown(attempts[0], last, cooldown) then [attempts[0]] + Accepted(attempts[1..], attempts[0], cooldown)
    else Accepted(attempts[1..], last, cooldown)
  }

  /** The last activation time after the accepted attempts `acc`, starting
      from `last`. */
  function LastOf(acc: seq<real>, last: real): real
  {
    if acc == [] then last else acc[|acc| - 1]
  }

  /** One more attempt is accepted, and becomes the new last activation,
      exactly when it is a cooldown or more after the last accepted
      attempt (or after `last` when none was accepted). */
  lemma {:induction false} AcceptedSnoc(attempts: seq<real>, t: real, last: real, cooldown: real)
    ensures Accepted(attempts + [t], last, cooldown)
            == Accepted(attempts, last, cooldown)
               + (if CooledDown(t, LastOf(Accepted(attempts, last, cooldown), last), cooldown) then [t] else [])
  {
    if attempts == [] {
      assert attempts + [t] == [t];
      assert [t][1..] == [];
    } else {
      var xs := attempts + [t];
      assert xs[0] == attempts[0] && xs[1..] == attempts[1..] + [t];
      if CooledDown(attempts[0], last, cooldown) {
        AcceptedSnoc(attempts[1..], t, attempts[0], cooldown);
        var rest := Accepted(attempts[1..], attempts[0], cooldown);
        assert LastOf([attempts[0]] + rest, last) == LastOf(rest, attempts[0]);
      } else {
        AcceptedSnoc(attempts[1..], t, last, cooldown);
      }
    }
  }

  /** The step of the filter over a prefix of the attempts, as a frame loop
      sees it. */
  lemma AcceptedStep(attempts: seq<real>, i: nat, last: real, cooldown: real)
    requires i < |attempts|
    ensures Accepted(attempts[..i + 1], last, cooldown)
            == Accepted(attempts[..i], last, cooldown)
               + (if CooledDown(attempts[i], LastOf(Accepted(attempts[..i], last, cooldown), last), cooldown)
                  then [attempts[i]] else [])
  {
    assert attempts[..i + 1] == attempts[..i] + [attempts[i]];
    AcceptedSnoc(attempts[..i], attempts[i], last, cooldown);
  }

  /** Each time is at least `cooldown` after the one before it, the first
      at least `cooldown` after `from`. */
  ghost predicate Spaced(times: seq<real>, from: real, cooldown: real)
  {
    (|times| > 0 ==> from + cooldown <= times[0])
    && forall i :: 0 < i < |times| ==> times[i - 1] + cooldown <= times[i]
  }

  /** Whatever the attempts, the accepted ones are spaced by the cooldown. */
  lemma {:induction false} AcceptedSpaced(attempts: seq<real>, last: real, cooldown: real)
    ensures Spaced(Accepted(attempts, last, cooldown), last, cooldown)
  {
    if attempts != [] {
      if CooledDown(attempts[0], last, cooldown) {
        AcceptedSpaced(attempts[1..], attempts[0], cooldown);
        SpacedCons(attempts[0], Accepted(attempts[1..], attempts[0], cooldown), last, cooldown);
      } else {
        AcceptedSpaced(attempts[1..], last, cooldown);
      }
    }
  }

  lemma SpacedCons(x: real, rest: seq<real>, from: real, cooldown: real)
    requires from + cooldown <= x && Spaced(rest, x, cooldown)
    ensures Spaced([x] + rest, from, cooldown)
  {
    var r := [x] + rest;
    forall i | 0 < i < |r| ensures r[i - 1] + cooldown <= r[i] {
      assert r[i] == rest[i - 1];
      if i > 1 {
        assert rest[i - 2] + cooldown <= rest[i - 1];
      }
    }
  }

  /** In a spaced run with a positive cooldown, any two activations are at
      least a cooldown apart, so a window shorter than the cooldown holds at
      most one. */
  lemma {:induction false} SpacedApart(times: seq<real>, from: real, cooldown: real, i: nat, j: nat)
    requires Spaced(times, from, cooldown) && cooldown > 0.0
    requires i < j < |times|
    ensures times[i] + cooldown <= times[j]
    decreases j - i
  {
    if i + 1 < j {
      SpacedApart(times, from, cooldown, i + 1, j);
      assert times[i] + cooldown <= times[i + 1];
    }
  }

  lemma AtMostOneInWindow(attempts: seq<real>, last: real, cooldown: real, start: real)
    requires cooldown > 0.0
    ensures var r := Accepted(attempts, last, cooldown);
            forall i, j :: 0 <= i < j < |r| ==> !(start <= r[i] < start + cooldown && start <= r[j] < start + cooldown)
  {
    var r := Accepted(attempts, last, cooldown);
    AcceptedSpaced(attempts, last, cooldown);
    forall i, j | 0 <= i < j < |r|
      ensures !(start <= r[i] < start + cooldown && start <= r[j] < start + cooldown)
    {
      SpacedApart(r, last, cooldown, i, j);
    }
  }

  function Times(acts: seq<Activation>): (r: seq<real>)
    ensures |r| == |acts| && forall i :: 0 <= i < |acts| ==> r[i] == acts[i].time
  {
    seq(|acts|, i requires 0 <= i < |acts| => acts[i].time)
  }

  class Player {
    const selfObject: nat
    const interactCooldown: real
    const hasHintUI: bool

    var hintActive: bool
    var currentInteractable: Option<TargetRef>
    var lastInteractTime: real
    var interactRequested: bool

    /** Every Interact() call made on a target, in order. */
    var activations: seq<Activation>

    /** Activations are spaced by the cooldown, counted from the initial
        last activation time 0, and the last one is `lastInteractTime`. */
    ghost predicate Valid()
      reads this
    {
      Spaced(Times(activations), 0.0, interactCooldown)
      && lastInteractTime == (if activations == [] then 0.0 else activations[|activations| - 1].time)
    }

    /** Awake: the hint starts hidden; no target, no request. */
    constructor (selfObject: nat, interactCooldown: real, hasHintUI: bool, initialHintActive: bool)
      ensures Valid()
      ensures this.selfObject == selfObject && this.interactCooldown == interactCooldown && this.hasHintUI == hasHintUI
      ensures hintActive == (if hasHintUI then false else initialHintActive)
      ensures currentInteractable == None && lastInteractTime == 0.0 && !interactRequested && activations == []
    {
      this.selfObject := selfObject;
      this.interactCooldown := interactCooldown;
      this.hasHintUI := hasHintUI;
      hintActive := initialHintActive;
      currentInteractable := None;
      lastInteractTime := 0.0;
      interactRequested := false;
      activations := [];
      new;
      if hasHintUI {
        hintActive := false;
      }
    }

    /** The Interact input only records a request. */
    method OnInteractPerformed()
      modifies this`interactRequested
      ensures interactRequested
    {
      interactRequested := true;
    }

    /** One frame: a pending request is consumed and tried once, however
        many input events raised it. */
    method Update(now: real)
      requires Valid()
      modifies this`interactRequested, this`lastInteractTime, this`activations
      ensures Valid() && !interactRequested
      ensures !old(interactRequested) ==> activations == old(activations) && lastInteractTime == old(lastInteractTime)
      ensures old(interactRequested) && old(currentInteractable).Some? && CooledDown(now, old(lastInteractTime), interactCooldown) ==>
                activations == old(activations) + [Activation(now, old(currentInteractable).value)]
      ensures !(old(interactRequested) && old(currentInteractable).Some? && CooledDown(now, old(lastInteractTime), interactCooldown)) ==>
                activations == old(activations) && lastInteractTime == old(lastInteractTime)
    {
      if !interactRequested {
        return;
      }
      interactRequested := false;
      TryInteract(now);
    }

    /** Activates the current target unless there is none or the cooldown
        is not over; an activation stamps the time. */
    method TryInteract(now: real)
      requires Valid()
      modifies this`lastInteractTime, this`activations
      ensures Valid()
      ensures currentInteractable.Some? && CooledDown(now, old(lastInteractTime), interactCooldown) ==>
                lastInteractTime == now && activations == old(activations) + [Activation(now, currentInteractable.value)]
      ensures !(currentInteractable.Some? && CooledDown(now, old(lastInteractTime), interactCooldown)) ==>
                lastInteractTime == old(lastInteractTime) && activations == old(activations)
      ensures currentInteractable.Some? ==>
                Times(activations) == Times(old(activations)) + Accepted([now], old(lastInteractTime), interactCooldown)
    {
      if currentInteractable.None? {
        return;
      }
      if now - lastInteractTime < interactCooldown {
        return;
      }
      ghost var before := Times(activations);
      lastInteractTime := now;
      activations := activations + [Activation(now, currentInteractable.value)];
      assert Times(activations) == before + [now];
    }

    method SetInteractHintVisible(visible: bool)
      modifies this`hintActive
      ensures hintActive == (if hasHintUI then visible else old(hintActive))
    {
      if hasHintUI {
        hintActive := visible;
      }
    }

    /** A collider entered the player's trigger: the player's own colliders
        are ignored; an IInteractable found with it becomes the current
        target (last wins) and the hint is shown. */
    method OnTriggerEnter(other: Collider)
      modifies this`currentInteractable, this`hintActive
      ensures other.gameObject != selfObject && other.interactable.Some? ==>
                currentInteractable == other.interactable && hintActive == (if hasHintUI then true else old(hintActive))
      ensures other.gameObject == selfObject || other.interactable.None? ==>
                currentInteractable == old(currentInteractable) && hintActive == old(hintActive)
    {
      if other.gameObject == selfObject {
        return;
      }
      if other.interactable.Some? {
        currentInteractable := other.interactable;
        SetInteractHintVisible(true);
      }
    }

    /** A collider left the player's trigger: the target is cleared and the
        hint hidden only when the collider's IInteractable is the current
        target itself. */
    method OnTriggerExit(other: Collider)
      modifies this`currentInteractable, this`hintActive
      ensures other.gameObject != selfObject && old(currentInteractable).Some? && other.interactable == old(currentInteractable) ==>
                currentInteractable == None && hintActive == (if hasHintUI then false else old(hintActive))
      ensures !(other.gameObject != selfObject && old(currentInteractable).Some? && other.interactable == old(currentInteractable)) ==>
                currentInteractable == old(currentInteractable) && hintActive == old(hintActive)
    {
      if other.gameObject == selfObject {
        return;
      }
      if currentInteractable.None? {
        return;
      }
      if other.interactable.Some? && other.interactable == currentInteractable {
        currentInteractable := None;
        SetInteractHintVisible(false);
      }
    }
  }
}
