/**
  The grab-and-follow behaviour of a build piece (`grabbable-bridge-block.js`):
  a press on the piece starts a grab, the piece then follows the cursor's hit
  object every frame, and a release edge, or the loss of the controller's
  button data, drops it.
 */
module Grabbing {
  import opened Scene

  /** The controller button that grabs: the trigger. */
  const GrabButtonIndex: int := 0

  /** An engine object the block can follow, with its world pose at the moment it is read. */
  datatype Tracked = Tracked(id: nat, pose: Pose)

  /**
    What `_onDown` reads from the cursor component: its `cursorObject` (the
    hit object) and the input component found on the cursor's controller.
   */
  datatype Cursor = Cursor(cursorObject: Option<Tracked>, input: Option<nat>)

  datatype Button = Button(pressed: bool)

  class GrabbableBridgeBlock {
    /** World pose of the block's object. */
    var pose: Pose
    var isGrabbed: bool
    /** Identity of the object followed while grabbed. */
    var followObject: Option<nat>
    /** Identity of the input component of the grabbing controller. */
    var grabInput: Option<nat>
    var wasButtonPressed: bool

    /** The three grab fields agree, and a grabbed block remembers a pressed button. */
    ghost predicate Valid()
      reads this
    {
      && (isGrabbed <==> followObject.Some?)
      && (isGrabbed <==> grabInput.Some?)
      && (isGrabbed ==> wasButtonPressed)
    }

    /** `init`: not grabbed, following nothing. */
    constructor (pose: Pose)
      ensures Valid()
      ensures this.pose == pose && !isGrabbed && followObject.None? && grabInput.None? && !wasButtonPressed
    {
      this.pose := pose;
      isGrabbed := false;
      followObject := None;
      grabInput := None;
      wasButtonPressed := false;
    }

    /**
      `_onDown(_, cursor)`: the trigger went down while pointing at the block.
      Without a hit object or an input component nothing changes; otherwise
      the grab starts and the block snaps to the hit object's pose.
     */
    method OnDown(cursor: Cursor)
      requires Valid()
      modifies this
      ensures Valid()
      ensures cursor.cursorObject.None? || cursor.input.None? ==>
              pose == old(pose) && isGrabbed == old(isGrabbed) && followObject == old(followObject) &&
              grabInput == old(grabInput) && wasButtonPressed == old(wasButtonPressed)
      ensures cursor.cursorObject.Some? && cursor.input.Some? ==>
              && isGrabbed && wasButtonPressed
              && followObject == Some(cursor.cursorObject.value.id)
              && grabInput == cursor.input
              && pose == cursor.cursorObject.value.pose
    {
      if cursor.cursorObject.None? {
        return;
      }
      var cursorHitObject := cursor.cursorObject.value;
      if cursor.input.None? {
        return;
      }
      isGrabbed := true;
      followObject := Some(cursorHitObject.id);
      grabInput := cursor.input;
      wasButtonPressed := true;
      pose := cursorHitObject.pose;
    }

    /**
      `update(dt)`. `followPose` is the followed object's world pose this
      frame; `buttons` is the gamepad button list behind the grabbing input
      (`None` when the input source, its gamepad or its buttons are missing).
     */
    method Update(followPose: Pose, buttons: Option<seq<Button>>)
      requires Valid()
      modifies this
      ensures Valid()
      // Not grabbed: nothing happens.
      ensures !old(isGrabbed) ==>
              pose == old(pose) && !isGrabbed && followObject.None? && grabInput.None? &&
              wasButtonPressed == old(wasButtonPressed)
      // Lost button data: fail-safe drop, the block stays where it is.
      ensures old(isGrabbed) && (buttons.None? || !(0 <= GrabButtonIndex < |buttons.value|)) ==>
              pose == old(pose) && !isGrabbed && followObject.None? && grabInput.None? && !wasButtonPressed
      // Release edge: drop without moving this frame.
      ensures old(isGrabbed) && buttons.Some? && 0 <= GrabButtonIndex < |buttons.value| &&
              !buttons.value[GrabButtonIndex].pressed ==>
              pose == old(pose) && !isGrabbed && followObject.None? && grabInput.None? && !wasButtonPressed
      // Still held: follow the hit object.
      ensures old(isGrabbed) && buttons.Some? && 0 <= GrabButtonIndex < |buttons.value| &&
              buttons.value[GrabButtonIndex].pressed ==>
              pose == followPose && isGrabbed && wasButtonPressed &&
              followObject == old(followObject) && grabInput == old(grabInput)
    {
      if !isGrabbed || followObject.None? || grabInput.None? {
        return;
      }
      if buttons.None? || GrabButtonIndex < 0 || GrabButtonIndex >= |buttons.value| {
        StopGrab();
        return;
      }
      var pressed := buttons.value[GrabButtonIndex].pressed;
      if !pressed && wasButtonPressed {
        StopGrab();
        return;
      }
      wasButtonPressed := pressed;
      pose := followPose;
    }

    /** `_stopGrab`: every grab field is reset; the pose stays. */
    method StopGrab()
      modifies this
      ensures Valid()
      ensures !isGrabbed && followObject.None? && grabInput.None? && !wasButtonPressed
      ensures pose == old(pose)
    {
      isGrabbed := false;
      followObject := None;
      grabInput := None;
      wasButtonPressed := false;
    }
  }

  /**
    A grab that starts, is held for a frame, and is released moves the block to
    where the hit object was while held and leaves it there, no longer grabbed.
   */
  method GrabHoldRelease(block: GrabbableBridgeBlock, hit: Tracked, input: nat, heldPose: Pose, releasedPose: Pose)
    requires block.Valid()
    modifies block
    ensures block.Valid() && !block.isGrabbed && block.pose == heldPose
  {
    block.OnDown(Cursor(Some(hit), Some(input)));
    block.Update(heldPose, Some([Button(true)]));
    block.Update(releasedPose, Some([Button(false)]));
  }
}
