/** Sessions driven through the dashboard's handlers. */
module Scenarios {
  import opened TimerMachine
  import opened DashboardTimer

  /**
   * With two seconds of prepare time on the clock, pressing play and letting
   * the interval fire twice completes exactly one phase: the dashboard is in
   * the warm-up, with its duration on the clock and two more seconds elapsed.
   */
  method PlayTwoTicks(d: Dashboard) returns (first: bool, second: bool)
    requires d.Valid()
    requires d.timerState.phase == Prepare && !d.timerState.isPlaying && d.currentTimeInSeconds == 2
    modifies d
    ensures d.Valid() && d.timerSettings == old(d.timerSettings)
    ensures first && second
    ensures d.timerState == old(d.timerState).(phase := Warmup, isPlaying := true, isPaused := false)
    ensures d.currentTimeInSeconds == PhaseSeconds(d.timerSettings, Warmup)
    ensures d.totalElapsedTime == old(d.totalElapsedTime) + 2
  {
    d.HandlePlayPause();
    first := d.Tick();
    second := d.Tick();
  }
}
