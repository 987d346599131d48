/**
 * The timer engine of the dashboard as values: the settings, the timer state,
 * the session-length formula, the phase transition table, manual navigation,
 * stop and play/pause. The class in module DashboardTimer applies these to its
 * fields; the lemmas here say what they mean for a whole session.
 */
module TimerMachine {
  import opened Wrappers
  import opened TimeCodec

  datatype Phase = Prepare | Warmup | Work | Rest | CycleRest

  /** The user's settings: durations as "MM:SS" text, the two counts and the two reps-mode flags. */
  datatype Settings = Settings(
    prepare: string,
    warmUp: string,
    work: string,
    rest: string,
    sets: int,
    cycles: int,
    cycleRest: string,
    workReps: bool,
    restReps: bool)

  /** The settings a dashboard starts with. */
  const DefaultSettings := Settings("00:03", "05:00", "00:30", "00:20", 3, 5, "00:30", false, true)

  /** The default settings parse to 3 s, 5 min, 30 s, 20 s and 30 s, a session of 1173 s. */
  lemma DefaultSettingsLengths()
    ensures WellFormed(DefaultSettings)
    ensures LengthsOf(DefaultSettings) == Lengths(3, 300, 30, 20, 30)
    ensures TotalSessionTime(DefaultSettings) == 1173
  {
    ParseTwoByTwo("00:03");
    ParseTwoByTwo("05:00");
    ParseTwoByTwo("00:30");
    ParseTwoByTwo("00:20");
    assert LengthsOf(DefaultSettings) == Lengths(3, 300, 30, 20, 30);
  }

  lemma TwoDigits(f: string)
    requires |f| == 2 && Strings.IsDigit(f[0]) && Strings.IsDigit(f[1])
    ensures Strings.IsDigits(f) && Strings.DigitsValue(f) == 10 * Strings.DigitValue(f[0]) + Strings.DigitValue(f[1])
  {
    var head := f[..1];
    assert head == [f[0]] && head[..0] == [];
    assert Strings.DigitsValue(head) == Strings.DigitValue(f[0]);
    assert f[..|f| - 1] == head;
  }

  /** A five-character "MM:SS" string of digits. */
  lemma ParseTwoByTwo(t: string)
    requires |t| == 5 && t[2] == ':'
    requires Strings.IsDigit(t[0]) && Strings.IsDigit(t[1]) && Strings.IsDigit(t[3]) && Strings.IsDigit(t[4])
    ensures TimeStringToSeconds(t)
         == Some((10 * Strings.DigitValue(t[0]) + Strings.DigitValue(t[1])) * 60
                 + 10 * Strings.DigitValue(t[3]) + Strings.DigitValue(t[4]))
  {
    var m, s := t[..2], t[3..];
    assert t == m + ":" + s;
    TwoDigits(m);
    TwoDigits(s);
    ParseFields(m, s);
  }

  /** Every duration of the settings parses to a number of seconds. */
  predicate WellFormed(st: Settings) {
    && TimeStringToSeconds(st.prepare).Some?
    && TimeStringToSeconds(st.warmUp).Some?
    && TimeStringToSeconds(st.work).Some?
    && TimeStringToSeconds(st.rest).Some?
    && TimeStringToSeconds(st.cycleRest).Some?
  }

  /** The five durations of the settings in seconds. */
  datatype Lengths = Lengths(prepare: nat, warmUp: nat, work: nat, rest: nat, cycleRest: nat)

  function LengthsOf(st: Settings): Lengths
    requires WellFormed(st)
  {
    Lengths(
      TimeStringToSeconds(st.prepare).value,
      TimeStringToSeconds(st.warmUp).value,
      TimeStringToSeconds(st.work).value,
      TimeStringToSeconds(st.rest).value,
      TimeStringToSeconds(st.cycleRest).value)
  }

  function Length(d: Lengths, p: Phase): nat {
    match p
    case Prepare => d.prepare
    case Warmup => d.warmUp
    case Work => d.work
    case Rest => d.rest
    case CycleRest => d.cycleRest
  }

  /** How long a phase lasts under the given settings. */
  function PhaseSeconds(st: Settings, p: Phase): nat
    requires WellFormed(st)
  {
    Length(LengthsOf(st), p)
  }

  /**
   * `calculateTotalSessionTime`: every cycle is its sets of work and rest plus a
   * cycle rest, and the cycle rest after the last cycle is taken off again.
   */
  function TotalSessionTime(st: Settings): (total: int)
    requires WellFormed(st)
    ensures total == PhaseSeconds(st, Prepare) + PhaseSeconds(st, Warmup)
                     + (PhaseSeconds(st, Work) + PhaseSeconds(st, Rest)) * st.sets * st.cycles
                     + PhaseSeconds(st, CycleRest) * (st.cycles - 1)
    ensures st.cycles >= 1 && st.sets >= 0 ==> total >= 0
  {
    var d := LengthsOf(st);
    var prepare, warmUp, work, rest, cycleRest := d.prepare, d.warmUp, d.work, d.rest, d.cycleRest;
    var totalCycleTime := (work + rest) * st.sets + cycleRest;
    SessionArithmetic(work + rest, st.sets, cycleRest, st.cycles);
    prepare + warmUp + totalCycleTime * st.cycles - cycleRest
  }

  lemma SessionArithmetic(pair: nat, sets: int, cycleRest: nat, cycles: int)
    ensures (pair * sets + cycleRest) * cycles - cycleRest == pair * sets * cycles + cycleRest * (cycles - 1)
    ensures cycles >= 1 && sets >= 0 ==> pair * sets * cycles >= 0 && cycleRest * (cycles - 1) >= 0
  {
    assert (pair * sets + cycleRest) * cycles == pair * sets * cycles + cycleRest * cycles;
    if cycles >= 1 && sets >= 0 {
      assert pair * sets >= 0;
    }
  }

  // ----- Settings changes -----

  datatype Key = PrepareKey | WarmUpKey | WorkKey | RestKey | SetsKey | CyclesKey | CycleRestKey | WorkRepsKey | RestRepsKey

  /** The value written into one settings field: text, a count or a flag. */
  datatype Value = Text(text: string) | Count(count: int) | Flag(flag: bool)

  /** The settings record read as a map from keys to values. */
  function Get(st: Settings, k: Key): Value {
    match k
    case PrepareKey => Text(st.prepare)
    case WarmUpKey => Text(st.warmUp)
    case WorkKey => Text(st.work)
    case RestKey => Text(st.rest)
    case SetsKey => Count(st.sets)
    case CyclesKey => Count(st.cycles)
    case CycleRestKey => Text(st.cycleRest)
    case WorkRepsKey => Flag(st.workReps)
    case RestRepsKey => Flag(st.restReps)
  }

  /** The value has the type the settings field declares. */
  predicate Fits(k: Key, v: Value) {
    match k
    case SetsKey | CyclesKey => v.Count?
    case WorkRepsKey | RestRepsKey => v.Flag?
    case _ => v.Text?
  }

  /** `{ ...prev, [key]: value }`. */
  function Changed(st: Settings, k: Key, v: Value): Settings
    requires Fits(k, v)
  {
    match k
    case PrepareKey => st.(prepare := v.text)
    case WarmUpKey => st.(warmUp := v.text)
    case WorkKey => st.(work := v.text)
    case RestKey => st.(rest := v.text)
    case SetsKey => st.(sets := v.count)
    case CyclesKey => st.(cycles := v.count)
    case CycleRestKey => st.(cycleRest := v.text)
    case WorkRepsKey => st.(workReps := v.flag)
    case RestRepsKey => st.(restReps := v.flag)
  }

  /** A change replaces the named key and only that one. */
  lemma ChangeReplacesOnlyKey(st: Settings, k: Key, v: Value, j: Key)
    requires Fits(k, v)
    ensures Get(Changed(st, k, v), j) == if j == k then v else Get(st, j)
  {
  }

  /** The reps-mode notice is shown when a reps flag is switched on. */
  predicate ShowsRepsNotice(k: Key, v: Value) {
    (k == WorkRepsKey || k == RestRepsKey) && v == Flag(true)
  }

  // ----- Timer state -----

  /** The timer part of the dashboard's state (its display strings aside). */
  datatype TimerState = TimerState(
    phase: Phase,
    currentSet: int,
    totalSets: int,
    currentCycle: int,
    totalCycles: int,
    isPlaying: bool,
    isPaused: bool)

  /** Set and cycle counters lie within the session. */
  predicate InBounds(t: TimerState) {
    1 <= t.currentSet <= t.totalSets && 1 <= t.currentCycle <= t.totalCycles
  }

  /** The settings effect copies the counts of the settings into the timer state. */
  function Retotaled(t: TimerState, st: Settings): (r: TimerState)
    ensures r.totalSets == st.sets && r.totalCycles == st.cycles
    ensures r.(totalSets := t.totalSets, totalCycles := t.totalCycles) == t
  {
    t.(totalSets := st.sets, totalCycles := st.cycles)
  }

  /**
   * The settings effect keeps phase, set and cycle, so lowering the number of
   * sets below the current set leaves the state outside the session.
   */
  lemma FewerSetsLeaveBounds(t: TimerState, st: Settings)
    requires InBounds(t) && 0 <= st.sets < t.currentSet
    ensures !InBounds(Retotaled(t, st))
    ensures Retotaled(t, st).phase == t.phase && Retotaled(t, st).currentSet == t.currentSet
  {
  }

  // ----- Phase completion -----

  /** What completing the current phase leads to. */
  datatype Completion = SessionComplete | Advance(phase: Phase, currentSet: int, currentCycle: int)

  /** The transition table of `handlePhaseComplete`. */
  function NextPhase(t: TimerState): Completion {
    match t.phase
    case Prepare => Advance(Warmup, t.currentSet, t.currentCycle)
    case Warmup => Advance(Work, t.currentSet, t.currentCycle)
    case Work => Advance(Rest, t.currentSet, t.currentCycle)
    case Rest =>
      if t.currentSet < t.totalSets then Advance(Work, t.currentSet + 1, t.currentCycle)
      else if t.currentCycle < t.totalCycles then Advance(CycleRest, 1, t.currentCycle + 1)
      else SessionComplete
    case CycleRest => Advance(Work, t.currentSet, t.currentCycle)
  }

  /** The timer state after a phase completes: the next phase, or stopped playing at the end. */
  function AfterCompletion(t: TimerState): TimerState {
    match NextPhase(t)
    case SessionComplete => t.(isPlaying := false)
    case Advance(p, s, c) => t.(phase := p, currentSet := s, currentCycle := c)
  }

  /** The clock after a phase completes: the new phase's duration, or left as it was when the session ends. */
  function ClockAfterCompletion(st: Settings, t: TimerState, clock: nat): nat
    requires WellFormed(st)
  {
    match NextPhase(t)
    case SessionComplete => clock
    case Advance(p, _, _) => PhaseSeconds(st, p)
  }

  /** Completing a phase never leaves the bounds of the session. */
  lemma CompletionKeepsBounds(t: TimerState)
    requires InBounds(t)
    ensures InBounds(AfterCompletion(t))
    ensures AfterCompletion(t).totalSets == t.totalSets && AfterCompletion(t).totalCycles == t.totalCycles
  {
  }

  // ----- The session schedule -----

  /** The work and rest phases of the sets of one cycle. */
  function SetPhases(sets: nat): (ps: seq<Phase>)
    ensures |ps| == 2 * sets
  {
    if sets == 0 then [] else SetPhases(sets - 1) + [Work, Rest]
  }

  /** Where the phases of cycle `c` (from 1) begin among the phases of all cycles. */
  function CycleStart(sets: nat, c: nat): nat
    requires c >= 1
  {
    if c == 1 then 0 else CycleStart(sets, c - 1) + 2 * sets + 1
  }

  lemma {:induction false} CycleStartMono(sets: nat, c: nat, d: nat)
    requires 1 <= c <= d
    ensures CycleStart(sets, c) <= CycleStart(sets, d)
    decreases d
  {
    if c < d {
      CycleStartMono(sets, c, d - 1);
    }
  }

  /** The phases of all cycles, with a cycle rest between consecutive cycles. */
  function CyclePhases(sets: nat, cycles: nat): (ps: seq<Phase>)
    requires cycles >= 1
    ensures |ps| == CycleStart(sets, cycles) + 2 * sets
  {
    if cycles == 1 then SetPhases(sets)
    else CyclePhases(sets, cycles - 1) + [CycleRest] + SetPhases(sets)
  }

  /** Every phase of a session, in the order the timer runs through them. */
  function Schedule(sets: nat, cycles: nat): seq<Phase>
    requires cycles >= 1
  {
    [Prepare, Warmup] + CyclePhases(sets, cycles)
  }

  /** The state is one the phase sequence reaches from a stop: prepare and warm-up belong to set 1 of cycle 1, a cycle rest opens a later cycle at set 1. */
  predicate Consistent(t: TimerState) {
    match t.phase
    case Prepare | Warmup => t.currentSet == 1 && t.currentCycle == 1
    case CycleRest => t.currentSet == 1 && t.currentCycle >= 2
    case Work | Rest => true
  }

  /** The position of a consistent state in the schedule. */
  function Pos(t: TimerState): int
    requires InBounds(t)
  {
    var start := CycleStart(t.totalSets, t.currentCycle);
    match t.phase
    case Prepare => 0
    case Warmup => 1
    case Work => 2 + start + 2 * (t.currentSet - 1)
    case Rest => 3 + start + 2 * (t.currentSet - 1)
    case CycleRest => 1 + start
  }

  lemma {:induction false} SetPhasesAt(sets: nat, k: nat)
    requires k < sets
    ensures SetPhases(sets)[2 * k] == Work && SetPhases(sets)[2 * k + 1] == Rest
  {
    if k < sets - 1 {
      SetPhasesAt(sets - 1, k);
    }
  }

  lemma {:induction false} CyclePhasesAt(sets: nat, cycles: nat, c: nat, j: nat)
    requires 1 <= c <= cycles && j < 2 * sets
    ensures CycleStart(sets, c) + j < |CyclePhases(sets, cycles)|
    ensures CyclePhases(sets, cycles)[CycleStart(sets, c) + j] == SetPhases(sets)[j]
    ensures c >= 2 ==> CyclePhases(sets, cycles)[CycleStart(sets, c) - 1] == CycleRest
  {
    CycleStartMono(sets, c, cycles);
    if cycles > 1 {
      var prefix := CyclePhases(sets, cycles - 1);
      var whole := CyclePhases(sets, cycles);
      assert whole == prefix + [CycleRest] + SetPhases(sets);
      if c < cycles {
        CycleStartMono(sets, c, cycles - 1);
        CyclePhasesAt(sets, cycles - 1, c, j);
        assert whole[CycleStart(sets, c) + j] == prefix[CycleStart(sets, c) + j];
        if c >= 2 {
          assert whole[CycleStart(sets, c) - 1] == prefix[CycleStart(sets, c) - 1];
        }
      }
    }
  }

  /** A consistent state sits at its position in the schedule. */
  lemma PositionInSchedule(t: TimerState)
    requires Consistent(t) && InBounds(t)
    ensures 0 <= Pos(t) < |Schedule(t.totalSets, t.totalCycles)|
    ensures Schedule(t.totalSets, t.totalCycles)[Pos(t)] == t.phase
  {
    var sets, cycles := t.totalSets, t.totalCycles;
    var c, s := t.currentCycle, t.currentSet;
    CycleStartMono(sets, c, cycles);
    match t.phase
    case Prepare =>
    case Warmup =>
    case Work =>
      CyclePhasesAt(sets, cycles, c, 2 * (s - 1));
      SetPhasesAt(sets, s - 1);
    case Rest =>
      CyclePhasesAt(sets, cycles, c, 2 * (s - 1) + 1);
      SetPhasesAt(sets, s - 1);
    case CycleRest =>
      CyclePhasesAt(sets, cycles, c, 0);
  }

  /**
   * Completing a phase moves one step along the schedule, and the session
   * completes exactly at its last phase.
   */
  lemma CompletionFollowsSchedule(t: TimerState)
    requires Consistent(t) && InBounds(t)
    ensures NextPhase(t).SessionComplete? <==> Pos(t) == |Schedule(t.totalSets, t.totalCycles)| - 1
    ensures NextPhase(t).Advance? ==>
              var u := AfterCompletion(t);
              Consistent(u) && InBounds(u) && Pos(u) == Pos(t) + 1
  {
    if t.currentCycle < t.totalCycles {
      CycleStartMono(t.totalSets, t.currentCycle + 1, t.totalCycles);
    }
  }

  /** Running a session from its first phase visits the schedule in order. */
  function Run(t: TimerState, completions: nat): TimerState {
    if completions == 0 then t else AfterCompletion(Run(t, completions - 1))
  }

  /**
   * From prepare at set 1 of cycle 1, the k-th phase completion reaches the
   * k-th phase of the schedule, for every phase of the session.
   */
  lemma {:induction false} RunFollowsSchedule(t: TimerState, k: nat)
    requires t.phase == Prepare && t.currentSet == 1 && t.currentCycle == 1
    requires t.totalSets >= 1 && t.totalCycles >= 1
    requires k < |Schedule(t.totalSets, t.totalCycles)|
    ensures var u := Run(t, k);
      && Consistent(u) && InBounds(u) && Pos(u) == k
      && u.phase == Schedule(t.totalSets, t.totalCycles)[k]
      && u.totalSets == t.totalSets && u.totalCycles == t.totalCycles
      && u.isPlaying == t.isPlaying && u.isPaused == t.isPaused
  {
    if k > 0 {
      RunFollowsSchedule(t, k - 1);
      CompletionFollowsSchedule(Run(t, k - 1));
    }
    PositionInSchedule(Run(t, k));
  }

  /** The completion after the last phase of the schedule ends the session: it only stops playing. */
  lemma RunEndsSession(t: TimerState)
    requires t.phase == Prepare && t.currentSet == 1 && t.currentCycle == 1
    requires t.totalSets >= 1 && t.totalCycles >= 1
    ensures var last := |Schedule(t.totalSets, t.totalCycles)| - 1;
      Run(t, last + 1) == Run(t, last).(isPlaying := false)
  {
    var last := |Schedule(t.totalSets, t.totalCycles)| - 1;
    RunFollowsSchedule(t, last);
    CompletionFollowsSchedule(Run(t, last));
  }

  /** With two sets and two cycles the timer runs through these phases. */
  lemma TwoByTwoSchedule()
    ensures Schedule(2, 2) == [Prepare, Warmup, Work, Rest, Work, Rest, CycleRest, Work, Rest, Work, Rest]
  {
    assert SetPhases(2) == [Work, Rest, Work, Rest];
  }

  // ----- Session length -----

  /** The total of the lengths of a sequence of phases. */
  function TotalLength(d: Lengths, ps: seq<Phase>): int {
    if ps == [] then 0 else TotalLength(d, ps[..|ps| - 1]) + Length(d, ps[|ps| - 1])
  }

  lemma {:induction false} TotalLengthAppend(d: Lengths, a: seq<Phase>, b: seq<Phase>)
    ensures TotalLength(d, a + b) == TotalLength(d, a) + TotalLength(d, b)
    decreases |b|
  {
    if b != [] {
      assert (a + b)[..|a + b| - 1] == a + b[..|b| - 1];
      TotalLengthAppend(d, a, b[..|b| - 1]);
    } else {
      assert a + b == a;
    }
  }

  lemma TotalLengthPair(d: Lengths, p: Phase, q: Phase)
    ensures TotalLength(d, [p]) == Length(d, p)
    ensures TotalLength(d, [p, q]) == Length(d, p) + Length(d, q)
  {
    assert [p][..0] == [];
    assert [p, q][..1] == [p];
  }

  lemma {:induction false} SetPhasesLength(d: Lengths, sets: nat)
    ensures TotalLength(d, SetPhases(sets)) == sets * (d.work + d.rest)
  {
    if sets > 0 {
      SetPhasesLength(d, sets - 1);
      TotalLengthAppend(d, SetPhases(sets - 1), [Work, Rest]);
      TotalLengthPair(d, Work, Rest);
      assert sets * (d.work + d.rest) == (sets - 1) * (d.work + d.rest) + (d.work + d.rest);
    }
  }

  lemma {:induction false} CyclePhasesLength(d: Lengths, sets: nat, cycles: nat)
    requires cycles >= 1
    ensures TotalLength(d, CyclePhases(sets, cycles))
         == cycles * (sets * (d.work + d.rest)) + (cycles - 1) * d.cycleRest
  {
    var block := sets * (d.work + d.rest);
    SetPhasesLength(d, sets);
    if cycles > 1 {
      CyclePhasesLength(d, sets, cycles - 1);
      TotalLengthAppend(d, CyclePhases(sets, cycles - 1) + [CycleRest], SetPhases(sets));
      TotalLengthAppend(d, CyclePhases(sets, cycles - 1), [CycleRest]);
      TotalLengthPair(d, CycleRest, CycleRest);
      assert cycles * block == (cycles - 1) * block + block;
      assert (cycles - 1) * d.cycleRest == (cycles - 2) * d.cycleRest + d.cycleRest;
    }
  }

  /**
   * The session length is the sum of the durations of every phase of
   * `Schedule(sets, cycles)`. With at least one set and at least one cycle
   * that is the session the timer runs (`RunFollowsSchedule`); with zero sets
   * or zero cycles it is not (`ZeroSetsUndercount`, `ZeroCyclesUndercount`).
   */
  lemma ScheduleLength(st: Settings)
    requires WellFormed(st) && st.sets >= 0 && st.cycles >= 1
    ensures TotalLength(LengthsOf(st), Schedule(st.sets, st.cycles)) == TotalSessionTime(st)
  {
    var d := LengthsOf(st);
    CyclePhasesLength(d, st.sets, st.cycles);
    TotalLengthAppend(d, [Prepare, Warmup], CyclePhases(st.sets, st.cycles));
    TotalLengthPair(d, Prepare, Warmup);
    assert PhaseSeconds(st, Prepare) == d.prepare && PhaseSeconds(st, Warmup) == d.warmUp;
    assert PhaseSeconds(st, Work) == d.work && PhaseSeconds(st, Rest) == d.rest;
    assert PhaseSeconds(st, CycleRest) == d.cycleRest;
    Commute(d.work + d.rest, st.sets, st.cycles, d.cycleRest);
  }

  /**
   * With zero sets the transition table still runs one work and one rest per
   * cycle: `currentSet < totalSets` is false for set 1 whether there are zero
   * sets or one, so the run is the run with one set.
   */
  lemma {:induction false} ZeroSetsRunAsOneSet(t: TimerState, k: nat)
    requires t.totalSets == 0 && t.currentSet == 1
    ensures Run(t.(totalSets := 1), k) == Run(t, k).(totalSets := 1)
    ensures Run(t, k).totalSets == 0 && Run(t, k).currentSet == 1
  {
    if k > 0 {
      ZeroSetsRunAsOneSet(t, k - 1);
      var u := Run(t, k - 1);
      assert NextPhase(u.(totalSets := 1)) == NextPhase(u);
    }
  }

  /**
   * With zero sets the session the timer runs is the one-set schedule, while
   * `calculateTotalSessionTime` counts neither its work nor its rest phases:
   * the total shown is one work and one rest per cycle short.
   */
  lemma ZeroSetsUndercount(st: Settings, t: TimerState, k: nat)
    requires WellFormed(st) && st.sets == 0 && st.cycles >= 1
    requires t.phase == Prepare && t.currentSet == 1 && t.currentCycle == 1
    requires t.totalSets == 0 && t.totalCycles == st.cycles
    requires k < |Schedule(1, st.cycles)|
    ensures Run(t, k).phase == Schedule(1, st.cycles)[k]
    ensures TotalLength(LengthsOf(st), Schedule(1, st.cycles))
         == TotalSessionTime(st) + (PhaseSeconds(st, Work) + PhaseSeconds(st, Rest)) * st.cycles
  {
    ZeroSetsRunAsOneSet(t, k);
    RunFollowsSchedule(t.(totalSets := 1), k);
    var one := st.(sets := 1);
    assert LengthsOf(one) == LengthsOf(st);
    ScheduleLength(one);
  }

  /**
   * With zero cycles the transition table still runs one cycle:
   * `currentCycle < totalCycles` is false for cycle 1 whether there are zero
   * cycles or one, so the run is the run with one cycle.
   */
  lemma {:induction false} ZeroCyclesRunAsOneCycle(t: TimerState, k: nat)
    requires t.totalCycles == 0 && t.currentCycle == 1
    ensures Run(t.(totalCycles := 1), k) == Run(t, k).(totalCycles := 1)
    ensures Run(t, k).totalCycles == 0 && Run(t, k).currentCycle == 1
  {
    if k > 0 {
      ZeroCyclesRunAsOneCycle(t, k - 1);
      var u := Run(t, k - 1);
      assert NextPhase(u.(totalCycles := 1)) == NextPhase(u);
    }
  }

  /**
   * With zero cycles the session the timer runs is the one-cycle schedule,
   * while `calculateTotalSessionTime` gives prepare + warm-up − cycle rest:
   * the total shown is short by every work and rest of that cycle and by one
   * cycle rest, and can be negative.
   */
  lemma ZeroCyclesUndercount(st: Settings, t: TimerState, k: nat)
    requires WellFormed(st) && st.cycles == 0 && st.sets >= 1
    requires t.phase == Prepare && t.currentSet == 1 && t.currentCycle == 1
    requires t.totalSets == st.sets && t.totalCycles == 0
    requires k < |Schedule(st.sets, 1)|
    ensures Run(t, k).phase == Schedule(st.sets, 1)[k]
    ensures TotalSessionTime(st) == PhaseSeconds(st, Prepare) + PhaseSeconds(st, Warmup) - PhaseSeconds(st, CycleRest)
    ensures TotalLength(LengthsOf(st), Schedule(st.sets, 1))
         == TotalSessionTime(st) + (PhaseSeconds(st, Work) + PhaseSeconds(st, Rest)) * st.sets
            + PhaseSeconds(st, CycleRest)
  {
    ZeroCyclesRunAsOneCycle(t, k);
    RunFollowsSchedule(t.(totalCycles := 1), k);
    var one := st.(cycles := 1);
    assert LengthsOf(one) == LengthsOf(st);
    ScheduleLength(one);
  }

  lemma Commute(pair: int, sets: int, cycles: int, cycleRest: int)
    ensures cycles * (sets * pair) == pair * sets * cycles
    ensures (cycles - 1) * cycleRest == cycleRest * (cycles - 1)
  {
  }

  // ----- Manual navigation -----

  /** `handleNext`: the next cycle, or back to cycle 1 at the next set (wrapping to set 1). */
  function NextPosition(t: TimerState): TimerState {
    if t.currentCycle < t.totalCycles then
      t.(currentCycle := t.currentCycle + 1)
    else
      t.(currentCycle := 1, currentSet := if t.currentSet < t.totalSets then t.currentSet + 1 else 1)
  }

  /** `handlePrevious`: the previous cycle, or on to the last cycle at the previous set (wrapping to the last set). */
  function PreviousPosition(t: TimerState): TimerState {
    if t.currentCycle > 1 then
      t.(currentCycle := t.currentCycle - 1)
    else
      t.(currentCycle := t.totalCycles, currentSet := if t.currentSet > 1 then t.currentSet - 1 else t.totalSets)
  }

  /** The time navigation puts on the clock: the rest duration in a rest phase, the work duration otherwise. */
  function NavigationSeconds(st: Settings, p: Phase): nat
    requires WellFormed(st)
  {
    if p == Rest then PhaseSeconds(st, Rest) else PhaseSeconds(st, Work)
  }

  /** The (set, cycle) pair counted with the cycle as the faster digit, from 0. */
  function Index(t: TimerState): int
    requires InBounds(t)
  {
    (t.currentSet - 1) * t.totalCycles + (t.currentCycle - 1)
  }

  lemma IndexRange(t: TimerState)
    requires InBounds(t)
    ensures 0 <= Index(t) < t.totalSets * t.totalCycles
  {
    MulMono(t.currentSet, t.totalSets, t.totalCycles);
  }

  lemma {:induction false} MulMono(a: int, b: int, k: nat)
    requires a <= b
    ensures a * k <= b * k
    decreases k
  {
    if k > 0 {
      MulMono(a, b, k - 1);
      assert a * k == a * (k - 1) + a && b * k == b * (k - 1) + b;
    }
  }

  /**
   * Next steps the (set, cycle) counter forward by one, wrapping from the last
   * set of the last cycle to the first; the phase and the totals stay.
   */
  lemma NextStepsForward(t: TimerState)
    requires InBounds(t)
    ensures var u := NextPosition(t);
      && InBounds(u)
      && Index(u) == (Index(t) + 1) % (t.totalSets * t.totalCycles)
      && u.(currentSet := t.currentSet, currentCycle := t.currentCycle) == t
  {
    var u := NextPosition(t);
    var n := t.totalSets * t.totalCycles;
    IndexRange(t);
    IndexRange(u);
    var i := Index(t);
    if t.currentCycle < t.totalCycles {
      assert Index(u) == i + 1;
      ModIdentity(i + 1, n);
    } else {
      assert i + 1 == t.currentSet * t.totalCycles;
      if t.currentSet < t.totalSets {
        assert Index(u) == i + 1;
        ModIdentity(i + 1, n);
      } else {
        assert Index(u) == 0 && i + 1 == n;
        ModWrap(n);
      }
    }
  }

  lemma ModIdentity(x: int, n: int)
    requires 0 <= x < n
    ensures x % n == x
  {
  }

  lemma ModWrap(n: int)
    requires n > 0
    ensures n % n == 0 && (-1) % n == n - 1
  {
  }

  /**
   * Previous steps the (set, cycle) counter back by one, wrapping from the
   * first set of the first cycle to the last; the phase and the totals stay.
   */
  lemma PreviousStepsBack(t: TimerState)
    requires InBounds(t)
    ensures var u := PreviousPosition(t);
      && InBounds(u)
      && Index(u) == (Index(t) - 1) % (t.totalSets * t.totalCycles)
      && u.(currentSet := t.currentSet, currentCycle := t.currentCycle) == t
  {
    var u := PreviousPosition(t);
    var n := t.totalSets * t.totalCycles;
    IndexRange(t);
    IndexRange(u);
    var i := Index(t);
    if t.currentCycle > 1 {
      assert Index(u) == i - 1;
      ModIdentity(i - 1, n);
    } else if t.currentSet > 1 {
      assert Index(u) == (t.currentSet - 2) * t.totalCycles + t.totalCycles - 1;
      assert (t.currentSet - 1) * t.totalCycles == (t.currentSet - 2) * t.totalCycles + t.totalCycles;
      ModIdentity(i - 1, n);
    } else {
      assert i == 0;
      assert n == (t.totalSets - 1) * t.totalCycles + t.totalCycles;
      ModWrap(n);
    }
  }

  /** Previous undoes next. */
  lemma PreviousAfterNext(t: TimerState)
    requires InBounds(t)
    ensures PreviousPosition(NextPosition(t)) == t
  {
  }

  /** Next undoes previous. */
  lemma NextAfterPrevious(t: TimerState)
    requires InBounds(t)
    ensures NextPosition(PreviousPosition(t)) == t
  {
  }

  /** With a single cycle, next cannot advance the cycle and steps the set instead: 1 to 2, and 3 of 3 back to 1. */
  lemma SingleCycleNext(t: TimerState)
    requires t.totalCycles == 1 && t.totalSets == 3 && t.currentCycle == 1
    ensures t.currentSet == 1 ==> NextPosition(t) == t.(currentSet := 2)
    ensures t.currentSet == 3 ==> NextPosition(t) == t.(currentSet := 1)
  {
  }

  // ----- Stop and play/pause -----

  /** `handleStop` on the timer state: back to prepare at set 1 of cycle 1, not playing, not paused. */
  function Stopped(t: TimerState): (r: TimerState)
    ensures r.phase == Prepare && r.currentSet == 1 && r.currentCycle == 1
    ensures Consistent(r) && !r.isPlaying && !r.isPaused
    ensures r.totalSets == t.totalSets && r.totalCycles == t.totalCycles
    ensures InBounds(r) <==> t.totalSets >= 1 && t.totalCycles >= 1
    ensures InBounds(r) ==> Pos(r) == 0
  {
    t.(isPlaying := false, isPaused := false, phase := Prepare, currentSet := 1, currentCycle := 1)
  }

  /** Stopping twice is stopping once. */
  lemma StopIdempotent(t: TimerState)
    ensures Stopped(Stopped(t)) == Stopped(t)
  {
  }

  /** `handlePlayPause`: playing flips, and paused records whether it was playing. */
  function PlayToggled(t: TimerState): (r: TimerState)
    ensures r.isPlaying != t.isPlaying && r.isPaused == t.isPlaying
    ensures r.(isPlaying := t.isPlaying, isPaused := t.isPaused) == t
  {
    t.(isPlaying := !t.isPlaying, isPaused := t.isPlaying)
  }

  /** Two toggles restore playing; paused then says it was not playing at the start. */
  lemma ToggleTwice(t: TimerState)
    ensures PlayToggled(PlayToggled(t)) == t.(isPaused := !t.isPlaying)
  {
  }
}
