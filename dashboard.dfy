/**
 * The dashboard's timer engine as an object. Its fields stand for the
 * component's state hooks (`timerState`, `currentTimeInSeconds`,
 * `totalElapsedTime`, `timerSettings` and the visibility of the reps-mode
 * notice); each handler is a method, and one firing of the one-second interval
 * is the method Tick.
 */
module DashboardTimer {
  import opened TimeCodec
  import opened TimerMachine

  class Dashboard {
    var timerState: TimerState
    /** Seconds left in the current phase. */
    var currentTimeInSeconds: nat
    /** Seconds elapsed since the last stop or settings change. */
    var totalElapsedTime: nat
    /** The planned session length the settings effect last computed. */
    var sessionTime: int
    var timerSettings: Settings
    /** Whether the reps-mode notice is on screen. */
    var messageVisible: bool

    ghost predicate Valid()
      reads this
    {
      WellFormed(timerSettings)
    }

    /** The state after mounting: the initial hooks, then the settings effect once. */
    constructor ()
      ensures Valid()
      ensures timerSettings == DefaultSettings && !messageVisible
      ensures timerState == TimerState(Prepare, 1, 3, 1, 5, false, false)
      ensures currentTimeInSeconds == 3 && totalElapsedTime == 0 && sessionTime == 1173
    {
      timerState := TimerState(Prepare, 1, 8, 1, 4, false, false);
      currentTimeInSeconds := 0;
      totalElapsedTime := 0;
      sessionTime := 0;
      timerSettings := DefaultSettings;
      messageVisible := false;
      new;
      DefaultSettingsLengths();
      SettingsEffect();
    }

    /** The current phase's remaining time as the display shows it. */
    function CurrentTimeText(): (r: string)
      reads this
      ensures TimeStringToSeconds(r) == Wrappers.Some(currentTimeInSeconds)
    {
      FormatThenParse(currentTimeInSeconds);
      SecondsToTimeString(currentTimeInSeconds)
    }

    /** The elapsed time as the display shows it. */
    function ElapsedTimeText(): (r: string)
      reads this
      ensures TimeStringToSeconds(r) == Wrappers.Some(totalElapsedTime)
    {
      FormatThenParse(totalElapsedTime);
      SecondsToTimeString(totalElapsedTime)
    }

    /**
     * The effect that runs whenever the settings change: the session length,
     * the totals of the timer state, the prepare time on the clock and no
     * elapsed time. Phase, set, cycle and playing are left as they are.
     */
    method SettingsEffect()
      requires Valid()
      modifies this
      ensures Valid() && timerSettings == old(timerSettings) && messageVisible == old(messageVisible)
      ensures sessionTime == TotalSessionTime(timerSettings)
      ensures timerState == Retotaled(old(timerState), timerSettings)
      ensures currentTimeInSeconds == PhaseSeconds(timerSettings, Prepare) && totalElapsedTime == 0
    {
      var totalSessionTime := TotalSessionTime(timerSettings);
      var initialPhaseTime := TimeStringToSeconds(timerSettings.prepare).value;
      sessionTime := totalSessionTime;
      timerState := timerState.(totalSets := timerSettings.sets, totalCycles := timerSettings.cycles);
      currentTimeInSeconds := initialPhaseTime;
      totalElapsedTime := 0;
    }

    /**
     * `handleSettingsChange`: replaces one setting, shows the reps-mode notice
     * when a reps flag is switched on, then runs the settings effect.
     */
    method HandleSettingsChange(key: Key, value: Value)
      requires Valid() && Fits(key, value) && WellFormed(Changed(timerSettings, key, value))
      modifies this
      ensures Valid() && timerSettings == Changed(old(timerSettings), key, value)
      ensures messageVisible == (ShowsRepsNotice(key, value) || old(messageVisible))
      ensures sessionTime == TotalSessionTime(timerSettings)
      ensures timerState == Retotaled(old(timerState), timerSettings)
      ensures currentTimeInSeconds == PhaseSeconds(timerSettings, Prepare) && totalElapsedTime == 0
    {
      timerSettings := Changed(timerSettings, key, value);
      if (key == WorkRepsKey || key == RestRepsKey) && value == Flag(true) {
        messageVisible := true;
      }
      SettingsEffect();
    }

    /** `handleMessageClose`. */
    method HandleMessageClose()
      modifies this`messageVisible
      ensures !messageVisible
    {
      messageVisible := false;
    }

    /**
     * `handlePhaseComplete`: moves to the next phase of the transition table
     * and puts that phase's duration on the clock; after the last rest of the
     * last cycle it only stops playing.
     */
    method HandlePhaseComplete()
      requires Valid()
      modifies this`timerState, this`currentTimeInSeconds
      ensures Valid()
      ensures timerState == AfterCompletion(old(timerState))
      ensures currentTimeInSeconds == ClockAfterCompletion(timerSettings, old(timerState), old(currentTimeInSeconds))
      ensures old(InBounds(timerState)) ==> InBounds(timerState)
    {
      var phase, currentSet, currentCycle := timerState.phase, timerState.currentSet, timerState.currentCycle;
      var totalSets, totalCycles := timerState.totalSets, timerState.totalCycles;
      var newPhase, newSet, newCycle, newTimeInSeconds := phase, currentSet, currentCycle, 0;
      match phase {
        case Prepare =>
          newPhase := Warmup;
          newTimeInSeconds := TimeStringToSeconds(timerSettings.warmUp).value;
        case Warmup =>
          newPhase := Work;
          newTimeInSeconds := TimeStringToSeconds(timerSettings.work).value;
        case Work =>
          newPhase := Rest;
          newTimeInSeconds := TimeStringToSeconds(timerSettings.rest).value;
        case Rest =>
          if currentSet < totalSets {
            newPhase := Work;
            newSet := currentSet + 1;
            newTimeInSeconds := TimeStringToSeconds(timerSettings.work).value;
          } else if currentCycle < totalCycles {
            newPhase := CycleRest;
            newSet := 1;
            newCycle := currentCycle + 1;
            newTimeInSeconds := TimeStringToSeconds(timerSettings.cycleRest).value;
          } else {
            timerState := timerState.(isPlaying := false);
            return;
          }
        case CycleRest =>
          newPhase := Work;
          newTimeInSeconds := TimeStringToSeconds(timerSettings.work).value;
      }
      timerState := timerState.(phase := newPhase, currentSet := newSet, currentCycle := newCycle);
      currentTimeInSeconds := newTimeInSeconds;
    }

    /**
     * One firing of the one-second interval, which is armed only while playing
     * with time on the clock. The clock counts down; at its last second the
     * phase completes instead, and the clock shows the next phase's duration
     * (0 when the session ends). Every firing adds one elapsed second.
     */
    method Tick() returns (fired: bool)
      requires Valid()
      modifies this`timerState, this`currentTimeInSeconds, this`totalElapsedTime
      ensures Valid()
      ensures fired == (old(timerState.isPlaying) && old(currentTimeInSeconds) > 0)
      ensures !fired ==> timerState == old(timerState) && currentTimeInSeconds == old(currentTimeInSeconds)
                         && totalElapsedTime == old(totalElapsedTime)
      ensures fired ==> totalElapsedTime == old(totalElapsedTime) + 1
      ensures fired && old(currentTimeInSeconds) > 1 ==>
                timerState == old(timerState) && currentTimeInSeconds == old(currentTimeInSeconds) - 1
      ensures fired && old(currentTimeInSeconds) <= 1 ==>
                timerState == AfterCompletion(old(timerState))
                && currentTimeInSeconds == ClockAfterCompletion(timerSettings, old(timerState), 0)
      ensures old(InBounds(timerState)) ==> InBounds(timerState)
    {
      fired := timerState.isPlaying && currentTimeInSeconds > 0;
      if fired {
        if currentTimeInSeconds <= 1 {
          currentTimeInSeconds := 0;
          HandlePhaseComplete();
        } else {
          currentTimeInSeconds := currentTimeInSeconds - 1;
        }
        totalElapsedTime := totalElapsedTime + 1;
      }
    }

    /** `handlePlayPause`. */
    method HandlePlayPause()
      modifies this`timerState
      ensures timerState == PlayToggled(old(timerState))
    {
      timerState := timerState.(isPlaying := !timerState.isPlaying, isPaused := timerState.isPlaying);
    }

    /** `handleStop`: back to prepare at set 1 of cycle 1 with the prepare time on the clock and nothing elapsed. */
    method HandleStop()
      requires Valid()
      modifies this`timerState, this`currentTimeInSeconds, this`totalElapsedTime
      ensures Valid()
      ensures timerState == Stopped(old(timerState))
      ensures currentTimeInSeconds == PhaseSeconds(timerSettings, Prepare) && totalElapsedTime == 0
    {
      timerState := timerState.(isPlaying := false, isPaused := false, phase := Prepare, currentSet := 1, currentCycle := 1);
      currentTimeInSeconds := TimeStringToSeconds(timerSettings.prepare).value;
      totalElapsedTime := 0;
    }

    /** `handleNext`: the next (set, cycle) position, with the clock reset for the current phase. */
    method HandleNext()
      requires Valid()
      modifies this`timerState, this`currentTimeInSeconds
      ensures Valid()
      ensures timerState == NextPosition(old(timerState))
      ensures currentTimeInSeconds == NavigationSeconds(timerSettings, timerState.phase)
      ensures old(InBounds(timerState)) ==> InBounds(timerState)
    {
      var currentCycle, totalCycles, phase := timerState.currentCycle, timerState.totalCycles, timerState.phase;
      var currentSet, totalSets := timerState.currentSet, timerState.totalSets;
      var newCycle, newSet := currentCycle, currentSet;
      if currentCycle < totalCycles {
        newCycle := currentCycle + 1;
      } else {
        newCycle := 1;
        newSet := if currentSet < totalSets then currentSet + 1 else 1;
      }
      timerState := timerState.(currentCycle := newCycle, currentSet := newSet);
      var timeToSet := if phase == Rest then TimeStringToSeconds(timerSettings.rest).value
                       else TimeStringToSeconds(timerSettings.work).value;
      currentTimeInSeconds := timeToSet;
    }

    /** `handlePrevious`: the previous (set, cycle) position, with the clock reset for the current phase. */
    method HandlePrevious()
      requires Valid()
      modifies this`timerState, this`currentTimeInSeconds
      ensures Valid()
      ensures timerState == PreviousPosition(old(timerState))
      ensures currentTimeInSeconds == NavigationSeconds(timerSettings, timerState.phase)
      ensures old(InBounds(timerState)) ==> InBounds(timerState)
    {
      var currentCycle, totalCycles, phase := timerState.currentCycle, timerState.totalCycles, timerState.phase;
      var currentSet, totalSets := timerState.currentSet, timerState.totalSets;
      var newCycle, newSet := currentCycle, currentSet;
      if currentCycle > 1 {
        newCycle := currentCycle - 1;
      } else {
        newCycle := totalCycles;
        newSet := if currentSet > 1 then currentSet - 1 else totalSets;
      }
      timerState := timerState.(currentCycle := newCycle, currentSet := newSet);
      var timeToSet := if phase == Rest then TimeStringToSeconds(timerSettings.rest).value
                       else TimeStringToSeconds(timerSettings.work).value;
      currentTimeInSeconds := timeToSet;
    }
  }
}
