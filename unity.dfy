/** The engine-side vocabulary the interaction scripts rely on: optional
    references, colours, positions, material values, the closures handed to
    the choice menu, and the scene-loading service.  Engine services are
    modelled as plain state that records what was asked of them. */
module Unity {

  /** A C# reference or nullable value: `None` is `null`. */
  datatype Option<+T> = None | Some(value: T)

  /** `string.IsNullOrEmpty` negated, for a nullable string. */
  predicate NonEmpty(s: Option<string>): (r: bool)
    ensures r <==> s != None && s != Some("")
  {
    s.Some? && s.value != ""
  }

  /** An RGBA colour with real components. */
  datatype Color = Color(r: real, g: real, b: real, a: real)

  const Black := Color(0.0, 0.0, 0.0, 1.0)

  /** `Color * float`: every component, alpha included, is scaled. */
  function Scale(c: Color, k: real): (r: Color)
    ensures k == 1.0 ==> r == c
    ensures k == 0.0 ==> r == Color(0.0, 0.0, 0.0, 0.0)
  {
    Color(c.r * k, c.g * k, c.b * k, c.a * k)
  }

  datatype Vector3 = Vector3(x: real, y: real, z: real)

  /** The part of a material the highlight touches: its identity and its
      emission settings (the `_EMISSION` keyword and `_EmissionColor`). */
  datatype Material = Material(id: nat, emissionKeyword: bool, emission: Color)

  /** The closures the interaction scripts hand to the choice menu, by what
      they do when invoked. */
  datatype Callback =
    | Teleport(target: Vector3)   // move the player mover to a fixed target
    | ReportNoTarget              // only logs that no teleport target is set
    | LoadScene(scene: string)    // SceneManager.LoadScene(scene)
    | DoNothing                   // `() => { }`
    | Opaque(id: nat)             // any other caller-supplied closure

  /** A visible consequence of running a callback. */
  datatype Effect = SceneLoad(scene: string) | TeleportTo(position: Vector3)

  /** What invoking `cb` does to the world.  `moverFound` is the result of
      looking up the player mover at the moment the callback runs. */
  function Outcome(cb: Callback, moverFound: bool): (r: seq<Effect>)
    ensures |r| <= 1
    ensures cb.LoadScene? ==> r == [SceneLoad(cb.scene)]
    ensures cb.Teleport? ==> (r == [TeleportTo(cb.target)] <==> moverFound)
    ensures cb.ReportNoTarget? || cb.DoNothing? || cb.Opaque? ==> r == []
  {
    match cb
    case Teleport(p) => if moverFound then [TeleportTo(p)] else []
    case LoadScene(s) => [SceneLoad(s)]
    case _ => []
  }

  /** The scene-transition service: every load requested, in order. */
  class SceneManager {
    var loaded: seq<string>

    constructor ()
      ensures loaded == []
    {
      loaded := [];
    }

    method LoadScene(scene: string)
      modifies this
      ensures loaded == old(loaded) + [scene]
    {
      loaded := loaded + [scene];
    }
  }
}
