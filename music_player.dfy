/** The background-music control (`MusicPlayer`) as a state machine: the
    one-shot start latch (`hasStartedRef`), the React state `isPlaying`,
    `isMuted` and `hasInteracted`, the audio element's own `paused`, `muted`,
    `loop`, `volume` and `preload`, and the pending 100 ms start timer and
    document listeners.  Whether `audio.play()` succeeds is decided by the
    browser and is a parameter of every event that calls it. */
module MusicPlayer {

  /** The three document events that try to start playback. */
  datatype Trigger = Click | TouchStart | KeyDown

  const AllTriggers: set<Trigger> := {Click, TouchStart, KeyDown}

  class Player {
    var isPlaying: bool
    var isMuted: bool
    var hasInteracted: bool
    /** `hasStartedRef.current`. */
    var hasStarted: bool

    var audioPaused: bool
    var audioMuted: bool
    var audioLoop: bool
    var audioVolume: real
    var audioPreloadAuto: bool

    /** The 100 ms start timer has not fired or been cleared. */
    var timerPending: bool
    /** The `{ once: true }` listeners still registered. */
    var listeners: set<Trigger>
    /** The effect has not been cleaned up. */
    var mounted: bool

    ghost predicate Valid()
      reads this
    {
      && audioLoop && audioVolume == 0.5 && audioPreloadAuto
      && isPlaying == hasInteracted
      && audioMuted == isMuted
      && (hasStarted ==> isPlaying)
      && (mounted && isPlaying ==> !audioPaused)
      && (!isPlaying ==> audioPaused)
      && listeners <= AllTriggers
      && (!mounted ==> !timerPending && listeners == {})
    }

    /** First render followed by the effect: the element is configured, the
        start timer is set and the three listeners are registered. */
    constructor ()
      ensures Valid() && mounted
      ensures audioLoop && audioVolume == 0.5 && audioPreloadAuto
      ensures !isPlaying && !isMuted && !hasInteracted && !hasStarted
      ensures audioPaused && !audioMuted
      ensures timerPending && listeners == AllTriggers
    {
      isPlaying, isMuted, hasInteracted, hasStarted := false, false, false, false;
      audioPaused, audioMuted := true, false;
      audioLoop := true;
      audioVolume := 0.5;
      audioPreloadAuto := true;
      timerPending := true;
      listeners := AllTriggers;
      mounted := true;
    }

    /** `tryPlay`: nothing when already started or already playing; otherwise
        latch, call `play()`, and on failure release the latch for a later
        attempt. */
    method TryPlay(playSucceeds: bool)
      requires Valid() && mounted
      modifies this`hasStarted, this`isPlaying, this`hasInteracted, this`audioPaused
      ensures Valid()
      ensures old(hasStarted) || !old(audioPaused) ==>
        hasStarted == old(hasStarted) && isPlaying == old(isPlaying)
        && hasInteracted == old(hasInteracted) && audioPaused == old(audioPaused)
      ensures !old(hasStarted) && old(audioPaused) && playSucceeds ==>
        hasStarted && isPlaying && hasInteracted && !audioPaused
      ensures !old(hasStarted) && old(audioPaused) && !playSucceeds ==>
        !hasStarted && isPlaying == old(isPlaying) && hasInteracted == old(hasInteracted) && audioPaused
      ensures old(isPlaying) ==> isPlaying
      ensures old(hasInteracted) ==> hasInteracted
    {
      if hasStarted || !audioPaused {
        return;
      }
      hasStarted := true;
      if playSucceeds {
        audioPaused := false;
        isPlaying := true;
        hasInteracted := true;
      } else {
        hasStarted := false;
      }
    }

    /** The 100 ms timer fires and tries to play. */
    method OnStartTimer(playSucceeds: bool)
      requires Valid() && mounted && timerPending
      modifies this`timerPending, this`hasStarted, this`isPlaying, this`hasInteracted, this`audioPaused
      ensures Valid() && !timerPending
      ensures old(isPlaying) ==> isPlaying
      ensures old(hasInteracted) ==> hasInteracted
      ensures isPlaying <==> old(isPlaying) || (old(audioPaused) && playSucceeds)
      ensures hasStarted == (old(hasStarted) || (old(audioPaused) && playSucceeds))
      ensures audioPaused == (old(audioPaused) && !playSucceeds)
    {
      timerPending := false;
      TryPlay(playSucceeds);
    }

    /** A document event whose listener is still registered: the listener is
        removed (it was added with `once`) and tries to play. */
    method OnDocumentEvent(trigger: Trigger, playSucceeds: bool)
      requires Valid() && mounted && trigger in listeners
      modifies this`listeners, this`hasStarted, this`isPlaying, this`hasInteracted, this`audioPaused
      ensures Valid() && listeners == old(listeners) - {trigger}
      ensures old(isPlaying) ==> isPlaying
      ensures old(hasInteracted) ==> hasInteracted
      ensures isPlaying <==> old(isPlaying) || (old(audioPaused) && playSucceeds)
      ensures hasStarted == (old(hasStarted) || (old(audioPaused) && playSucceeds))
      ensures audioPaused == (old(audioPaused) && !playSucceeds)
    {
      listeners := listeners - {trigger};
      TryPlay(playSucceeds);
    }

    /** `toggleMute`: before the first interaction it tries to play and, on
        success, unmutes; afterwards it only flips the mute state. */
    method ToggleMute(playSucceeds: bool)
      requires Valid()
      modifies this`isPlaying, this`hasInteracted, this`isMuted, this`audioMuted, this`audioPaused
      ensures Valid()
      ensures !old(hasInteracted) && playSucceeds ==>
        isPlaying && hasInteracted && !isMuted && !audioMuted && !audioPaused
      ensures !old(hasInteracted) && !playSucceeds ==>
        isPlaying == old(isPlaying) && hasInteracted == old(hasInteracted) && isMuted == old(isMuted)
        && audioMuted == old(audioMuted) && audioPaused == old(audioPaused)
      ensures old(hasInteracted) ==>
        isMuted == !old(isMuted) && audioMuted == isMuted
        && isPlaying == old(isPlaying) && hasInteracted && audioPaused == old(audioPaused)
      ensures old(isPlaying) ==> isPlaying
    {
      if !hasInteracted {
        if playSucceeds {
          audioPaused := false;
          isPlaying := true;
          hasInteracted := true;
          audioMuted := false;
          isMuted := false;
        }
      } else {
        audioMuted := !isMuted;
        isMuted := !isMuted;
      }
    }

    /** The effect cleanup: clear the timer, remove the listeners, and pause
        the element unless the start latch is set. */
    method Cleanup()
      requires Valid() && mounted
      modifies this`timerPending, this`listeners, this`mounted, this`audioPaused
      ensures Valid() && !mounted && !timerPending && listeners == {}
      ensures audioPaused == (old(audioPaused) || !hasStarted)
    {
      timerPending := false;
      listeners := {};
      mounted := false;
      if !hasStarted {
        audioPaused := true;
      }
    }
  }

  /** Playback started from the button does not set the start latch, so the
      cleanup pauses it although it did start. */
  method ButtonStartedPlaybackIsPausedOnCleanup() returns (playedThenPaused: bool)
    ensures playedThenPaused
  {
    var p := new Player();
    p.ToggleMute(true);
    var played := p.isPlaying && !p.audioPaused;
    p.Cleanup();
    playedThenPaused := played && p.audioPaused;
  }

  /** Playback started automatically sets the start latch, so the cleanup
      leaves it playing. */
  method AutomaticStartSurvivesCleanup() returns (stillPlaying: bool)
    ensures stillPlaying
  {
    var p := new Player();
    p.OnStartTimer(true);
    p.Cleanup();
    stillPlaying := p.isPlaying && !p.audioPaused;
  }

  /** A failed automatic attempt releases the latch, so a later gesture
      tries again and can start playback. */
  method GestureRetriesAfterFailedTimer() returns (latchedAfterFailure: bool, playing: bool, latched: bool)
    ensures !latchedAfterFailure
    ensures playing && latched
  {
    var p := new Player();
    p.OnStartTimer(false);
    latchedAfterFailure := p.hasStarted;
    p.OnDocumentEvent(Click, true);
    playing, latched := p.isPlaying, p.hasStarted;
  }

  /** Automatic attempts are bounded: once the timer and all three listeners
      have failed, playback is still stopped and only the button can start it. */
  method AutomaticAttemptsRunOut() returns (retriesLeft: bool, playing: bool)
    ensures !retriesLeft && !playing
  {
    var p := new Player();
    p.OnStartTimer(false);
    p.OnDocumentEvent(Click, false);
    p.OnDocumentEvent(TouchStart, false);
    p.OnDocumentEvent(KeyDown, false);
    retriesLeft := p.timerPending || p.listeners != {};
    playing := p.isPlaying;
  }
}
