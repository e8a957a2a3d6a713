/** The scene portal (InteractableScenePortal): each Interact with a scene
    name starts a DoLoad coroutine that waits `delayBeforeLoad` seconds and
    then loads the scene.  A pending coroutine is its resume time; nothing
    cancels one. */
module InteractableScenePortal {

  /** The pending coroutines whose wait is over at time `now`. */
  function Due(pending: seq<real>, now: real): (r: seq<real>)
    ensures |r| <= |pending|
    ensures forall t :: t in r ==> t in pending && t <= now
  {
    if pending == [] then []
    else (if pending[0] <= now then [pending[0]] else []) + Due(pending[1..], now)
  }

  /** The pending coroutines still waiting at time `now`, in order. */
  function Waiting(pending: seq<real>, now: real): (r: seq<real>)
    ensures |r| <= |pending|
    ensures forall t :: t in r ==> t in pending && now < t
  {
    if pending == [] then []
    else (if pending[0] <= now then [] else [pending[0]]) + Waiting(pending[1..], now)
  }

  /** `n` loads of the same scene. */
  function Loads(scene: string, n: nat): (r: seq<string>)
    ensures |r| == n
    ensures forall s :: s in r ==> s == scene
  {
    if n == 0 then [] else Loads(scene, n - 1) + [scene]
  }

  /** Every pending coroutine either resumes now or keeps waiting: none is
      lost and none resumes twice. */
  lemma {:induction false} DueWaitingPartition(pending: seq<real>, now: real)
    ensures |Due(pending, now)| + |Waiting(pending, now)| == |pending|
    ensures multiset(Due(pending, now)) + multiset(Waiting(pending, now)) == multiset(pending)
  {
    if pending != [] {
      DueWaitingPartition(pending[1..], now);
      assert pending == [pending[0]] + pending[1..];
    }
  }

  lemma {:induction false} DueAppend(a: seq<real>, b: seq<real>, now: real)
    ensures Due(a + b, now) == Due(a, now) + Due(b, now)
  {
    if a == [] {
      assert a + b == b;
    } else {
      var ab := a + b;
      assert ab[0] == a[0] && ab[1..] == a[1..] + b;
      DueAppend(a[1..], b, now);
      var due: seq<real> := if a[0] <= now then [a[0]] else [];
      calc {
        Due(ab, now);
        due + Due(a[1..] + b, now);
        due + (Due(a[1..], now) + Due(b, now));
        (due + Due(a[1..], now)) + Due(b, now);
      }
    }
  }

  lemma {:induction false} WaitingAppend(a: seq<real>, b: seq<real>, now: real)
    ensures Waiting(a + b, now) == Waiting(a, now) + Waiting(b, now)
  {
    if a == [] {
      assert a + b == b;
    } else {
      var ab := a + b;
      assert ab[0] == a[0] && ab[1..] == a[1..] + b;
      WaitingAppend(a[1..], b, now);
      var wait: seq<real> := if a[0] <= now then [] else [a[0]];
      calc {
        Waiting(ab, now);
        wait + Waiting(a[1..] + b, now);
        wait + (Waiting(a[1..], now) + Waiting(b, now));
        (wait + Waiting(a[1..], now)) + Waiting(b, now);
      }
    }
  }

  /** One more pending coroutine, looked at on its own: it is due or it
      waits. */
  lemma DueWaitingStep(pending: seq<real>, i: nat, now: real)
    requires i < |pending|
    ensures Due(pending[..i + 1], now) == Due(pending[..i], now) + (if pending[i] <= now then [pending[i]] else [])
    ensures Waiting(pending[..i + 1], now) == Waiting(pending[..i], now) + (if pending[i] <= now then [] else [pending[i]])
  {
    assert pending[..i + 1] == pending[..i] + [pending[i]];
    assert [pending[i]][1..] == [];
    DueAppend(pending[..i], [pending[i]], now);
    WaitingAppend(pending[..i], [pending[i]], now);
  }

  /** A coroutine started at `start` does not resume before `start + delay`,
      and does once that time is reached. */
  lemma {:induction false} ResumesOnlyAfterDelay(pending: seq<real>, start: real, delay: real, now: real)
    ensures now < start + delay ==> Due(pending + [start + delay], now) == Due(pending, now)
    ensures start + delay <= now ==> Due(pending + [start + delay], now) == Due(pending, now) + [start + delay]
  {
    DueAppend(pending, [start + delay], now);
    assert [start + delay][1..] == [];
  }

  /** Interacting `k` times before any wait is over leaves `k` more
      independent coroutines waiting. */
  lemma {:induction false} InteractsAccumulate(pending: seq<real>, more: seq<real>, now: real)
    requires forall t :: t in more ==> now < t
    ensures Waiting(pending + more, now) == Waiting(pending, now) + more
    ensures Due(pending + more, now) == Due(pending, now)
  {
    DueAppend(pending, more, now);
    WaitingAppend(pending, more, now);
    AllWaiting(more, now);
  }

  lemma {:induction false} AllWaiting(more: seq<real>, now: real)
    requires forall t :: t in more ==> now < t
    ensures Waiting(more, now) == more && Due(more, now) == []
  {
    if more != [] {
      assert more[0] in more;
      forall t | t in more[1..] ensures now < t {
        assert t in more;
      }
      AllWaiting(more[1..], now);
    }
  }
}
