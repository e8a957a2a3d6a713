/** Entering a location from the world map (PlayerOnWorldMap_MoveToLocation):
    a location's trigger records its scene and shows the enter button,
    leaving any location clears it, and the button loads the recorded
    scene. */
module PlayerOnWorldMapMoveToLocation {
  import opened Unity

  /** The LocationData component of a location, with its scene name ("" for
      a name that is null or empty). */
  datatype LocationData = LocationData(sceneName: string)

  /** A collider met on the world map: its transform and its LocationData,
      if it has one. */
  datatype MapCollider = MapCollider(transform: nat, location: Option<LocationData>)

  class MoveToLocation {
    const scenes: SceneManager
    var targetSceneName: string     // "" stands for null
    var targetLocation: Option<nat>
    var buttonActive: bool

    /** Start: the enter button is hidden. */
    constructor (scenes: SceneManager, buttonActive: bool)
      ensures this.scenes == scenes
      ensures !this.buttonActive && targetSceneName == "" && targetLocation == None
    {
      this.scenes := scenes;
      this.buttonActive := buttonActive;
      targetSceneName := "";
      targetLocation := None;
      new;
      this.buttonActive := false;
    }

    /** A location's trigger records its scene and shows the button; any
        other collider changes nothing. */
    method OnTriggerEnter(other: MapCollider)
      modifies this
      ensures other.location.Some? ==>
                targetSceneName == other.location.value.sceneName && targetLocation == Some(other.transform) && buttonActive
      ensures other.location.None? ==>
                targetSceneName == old(targetSceneName) && targetLocation == old(targetLocation) && buttonActive == old(buttonActive)
    {
      if other.location.Some? {
        targetSceneName := other.location.value.sceneName;
        targetLocation := Some(other.transform);
        buttonActive := true;
      }
    }

    /** Leaving any location clears the target and hides the button, even a
        location other than the recorded one. */
    method OnTriggerExit(other: MapCollider)
      modifies this
      ensures other.location.Some? ==> targetSceneName == "" && targetLocation == None && !buttonActive
      ensures other.location.None? ==>
                targetSceneName == old(targetSceneName) && targetLocation == old(targetLocation) && buttonActive == old(buttonActive)
    {
      if other.location.Some? {
        targetSceneName := "";
        targetLocation := None;
        buttonActive := false;
      }
    }

    /** The enter button: loads the recorded scene when there is one. */
    method EnterLocation()
      modifies scenes
      ensures scenes.loaded == old(scenes.loaded) + (if targetSceneName != "" then [targetSceneName] else [])
    {
      if targetSceneName != "" {
        scenes.LoadScene(targetSceneName);
      }
    }
  }
}
