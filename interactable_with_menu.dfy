/** The menu-offering interactable (InteractableWithMenu): how its Interact
    builds the choice-menu session from its teleport target and scene name. */
module InteractableWithMenu {
  import opened Unity
  import opened InteractionMenuUI

  const TeleportCaption := "Переместиться"
  const NoPlaceCaption := "Нет места"
  const LoadSceneCaption := "Загрузить сцену"

  /** The arguments of one InteractionMenuUI.Show call. */
  datatype ShowArgs = ShowArgs(title: string, option1Label: string, option1: Option<Callback>,
                               option2Label: Option<string>, option2: Option<Callback>, cancel: Option<Callback>)

  /** The session Interact opens: option 1 teleports to the target, or only
      reports that there is none; option 2 loads the scene and is passed
      only when a scene name is set; cancel does nothing; the title is the
      hint text. */
  function MenuRequest(hintText: string, teleportTarget: Option<Vector3>, sceneToLoad: string): (a: ShowArgs)
    ensures a.title == hintText
    ensures a.option1Label == (if teleportTarget.Some? then TeleportCaption else NoPlaceCaption)
    ensures a.option1 == Some(if teleportTarget.Some? then Teleport(teleportTarget.value) else ReportNoTarget)
    ensures a.option2.Some? <==> sceneToLoad != ""
    ensures a.option2Label.Some? <==> sceneToLoad != ""
    ensures sceneToLoad != "" ==> a.option2 == Some(LoadScene(sceneToLoad)) && a.option2Label == Some(LoadSceneCaption)
    ensures a.cancel == Some(DoNothing)
  {
    var option1 := if teleportTarget.Some? then Teleport(teleportTarget.value) else ReportNoTarget;
    var caption := if teleportTarget.Some? then TeleportCaption else NoPlaceCaption;
    if sceneToLoad != "" then
      ShowArgs(hintText, caption, Some(option1), Some(LoadSceneCaption), Some(LoadScene(sceneToLoad)), Some(DoNothing))
    else
      ShowArgs(hintText, caption, Some(option1), None, None, Some(DoNothing))
  }

  /** The menu stores option 2, and so activates its second button, exactly
      when a scene name is set; without one the slot is empty. */
  lemma Option2IffScene(hintText: string, teleportTarget: Option<Vector3>, sceneToLoad: string)
    ensures var a := MenuRequest(hintText, teleportTarget, sceneToLoad);
            var s := SessionSlots(a.option1, a.option2Label, a.option2, a.cancel);
            (Option2Offered(a.option2Label, a.option2) <==> sceneToLoad != "")
            && (s.option2 == if sceneToLoad != "" then Some(LoadScene(sceneToLoad)) else None)
  {
    assert LoadSceneCaption != "" by {
      assert LoadSceneCaption[0] == 'З';
    }
  }

  /** What each option does when chosen: option 1 moves the player to the
      target when there is one and a mover exists and otherwise changes
      nothing; option 2 loads exactly the configured scene; cancel does
      nothing. */
  lemma OptionOutcomes(hintText: string, teleportTarget: Option<Vector3>, sceneToLoad: string, moverFound: bool)
    ensures var a := MenuRequest(hintText, teleportTarget, sceneToLoad);
            && Outcome(a.option1.value, moverFound)
               == (if teleportTarget.Some? && moverFound then [TeleportTo(teleportTarget.value)] else [])
            && (a.option2.Some? ==> Outcome(a.option2.value, moverFound) == [SceneLoad(sceneToLoad)])
            && Outcome(a.cancel.value, moverFound) == []
  {
  }
}
