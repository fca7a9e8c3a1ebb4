/** The reveal-on-scroll wrapper (`Reveal`) as a state machine over the
    events its intersection observer and timers deliver: the first entry of
    an observer batch (entering or leaving the viewport), a delayed timer
    firing, and the effect cleanup.  The state is the `isVisible` flag, the
    timer handle stored on the element, the timers still pending, and
    whether the observer still watches the element. */
module Reveal {
  import opened Wrappers

  /** Classes that are always present: hidden and moved down. */
  const BaseClasses: string := "opacity-0 translate-y-6 transition-all duration-700 ease-out will-change-transform will-change-opacity"
  /** Classes added while visible: faded in and slid up. */
  const VisibleClasses: string := "opacity-100 translate-y-0"

  class RevealElement {
    /** `once`: reveal a single time (true) or toggle on enter and leave (false). */
    const once: bool
    /** `delayMs`: how long after entering the reveal waits. */
    const delayMs: int

    var isVisible: bool
    /** `element._revealTimer`: written only in toggle mode, never reset. */
    var storedTimer: Option<nat>
    /** Timers scheduled by the callback that have neither fired nor been cleared. */
    var pending: set<nat>
    /** The handle the next `setTimeout` returns; handles are positive. */
    var nextHandle: nat
    /** Whether the observer still delivers entries for the element. */
    var observing: bool
    /** Whether the observer is still connected (the effect has not been cleaned up). */
    var connected: bool

    ghost predicate Valid()
      reads this
    {
      && (storedTimer.Some? ==> !once && 0 < storedTimer.value < nextHandle)
      && (forall t :: t in pending ==> 0 < t < nextHandle)
      && nextHandle > 0
      && (observing ==> connected)
      && (once && observing ==> pending == {} && !isVisible)
      && (once ==> |pending| <= 1)
    }

    /** The timers that the cleanup or a leave event can still cancel. */
    function Cancellable(): set<nat>
      reads this
    {
      if storedTimer.Some? then {storedTimer.value} else {}
    }

    /** Mount: hidden, nothing scheduled, the observer watching the element. */
    constructor (once: bool, delayMs: int)
      ensures Valid()
      ensures this.once == once && this.delayMs == delayMs
      ensures !isVisible && storedTimer == None && pending == {}
      ensures observing && connected
    {
      this.once := once;
      this.delayMs := delayMs;
      isVisible := false;
      storedTimer := None;
      pending := {};
      nextHandle := 1;
      observing := true;
      connected := true;
    }

    /** The observer callback.  Only `entries[0]` is examined; `true` means
        the element is intersecting. */
    method OnEntries(entries: seq<bool>)
      requires Valid() && observing && |entries| > 0
      modifies this
      ensures Valid() && connected
      // entering, no delay: visible at once
      ensures entries[0] && delayMs <= 0 ==>
        isVisible && pending == old(pending) && storedTimer == old(storedTimer) && nextHandle == old(nextHandle)
      // entering with a delay: only a timer is scheduled; toggle mode overwrites the stored handle
      ensures entries[0] && delayMs > 0 ==>
        && isVisible == old(isVisible)
        && pending == old(pending) + {old(nextHandle)} && nextHandle == old(nextHandle) + 1
        && storedTimer == (if once then old(storedTimer) else Some(old(nextHandle)))
      // entering in once mode stops the observation
      ensures entries[0] ==> observing == !once
      // leaving in toggle mode: the stored timer is cleared and the element hidden
      ensures !entries[0] && !once ==>
        && !isVisible && pending == old(pending) - old(Cancellable())
        && storedTimer == old(storedTimer) && nextHandle == old(nextHandle) && observing
      // leaving in once mode: nothing happens
      ensures !entries[0] && once ==>
        && isVisible == old(isVisible) && pending == old(pending) && storedTimer == old(storedTimer)
        && nextHandle == old(nextHandle) && observing
      // once mode never hides the element again
      ensures once && old(isVisible) ==> isVisible
    {
      if entries[0] {
        if delayMs > 0 {
          var timer := nextHandle;
          nextHandle := nextHandle + 1;
          pending := pending + {timer};
          if !once {
            storedTimer := Some(timer);
          }
        } else {
          isVisible := true;
        }
        if once {
          observing := false;
        }
      } else if !once {
        if storedTimer.Some? {
          pending := pending - {storedTimer.value};
        }
        isVisible := false;
      }
    }

    /** A scheduled timer fires and sets `isVisible`; the stored handle is
        left as it was. */
    method FireTimer(timer: nat)
      requires Valid() && timer in pending
      modifies this`isVisible, this`pending
      ensures Valid()
      ensures isVisible && pending == old(pending) - {timer}
    {
      pending := pending - {timer};
      isVisible := true;
    }

    /** The effect cleanup: clear the stored handle, if any, and disconnect
        the observer.  Timers whose handle was not stored keep running. */
    method Cleanup()
      requires Valid()
      modifies this`pending, this`observing, this`connected
      ensures Valid()
      ensures pending == old(pending) - old(Cancellable())
      ensures !observing && !connected
      ensures once ==> pending == old(pending)
    {
      if storedTimer.Some? {
        pending := pending - {storedTimer.value};
      }
      observing := false;
      connected := false;
    }
  }

  /** In once mode with a delay, a timer scheduled before unmount is never
      cleared: it is still pending after the cleanup. */
  method OnceTimerOutlivesCleanup() returns (leaked: set<nat>)
    ensures leaked != {}
  {
    var r := new RevealElement(true, 300);
    r.OnEntries([true]);
    r.Cleanup();
    leaked := r.pending;
  }

  /** In toggle mode, a second delayed entry overwrites the stored handle;
      leaving then clears only the newer timer, and the older one still
      reveals the element after it has left the viewport. */
  method ToggleOrphanTimerRevealsAfterLeave() returns (visibleAfterLeave: bool)
    ensures visibleAfterLeave
  {
    var r := new RevealElement(false, 300);
    r.OnEntries([true]);
    var first := r.nextHandle - 1;
    r.OnEntries([true]);
    r.OnEntries([false]);
    assert !r.isVisible && first in r.pending;
    r.FireTimer(first);
    visibleAfterLeave := r.isVisible;
  }

  /** A batch whose first entry is a leave hides the element in toggle mode,
      even when a later entry of the same batch is an enter. */
  method OnlyFirstEntryCounts() returns (visible: bool)
    ensures !visible
  {
    var r := new RevealElement(false, 0);
    r.OnEntries([true]);
    r.OnEntries([false, true]);
    visible := r.isVisible;
  }

  /** The class list handed to `cn`: the base classes, the visible classes
      when `isVisible` holds, and the caller's classes when given. */
  function ClassName(isVisible: bool, className: Option<string>): (r: string)
    ensures BaseClasses <= r
  {
    BaseClasses
    + (if isVisible then " " + VisibleClasses else "")
    + (if className.Some? && className.value != "" then " " + className.value else "")
  }

  /** `isVisible` only inserts the two visible classes after the base ones;
      everything else about the element is the same. */
  lemma VisibilityOnlyAddsClasses(className: Option<string>)
    ensures ClassName(false, className)[..|BaseClasses|] == BaseClasses
    ensures ClassName(true, className)
            == BaseClasses + " " + VisibleClasses + ClassName(false, className)[|BaseClasses|..]
  {
    var extra := if className.Some? && className.value != "" then " " + className.value else "";
    assert ClassName(false, className) == BaseClasses + extra;
    assert ClassName(false, className)[|BaseClasses|..] == extra;
  }
}
