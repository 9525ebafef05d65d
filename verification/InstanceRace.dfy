/** Concurrent lookups and writes of one cached model row (common/djangoapps/cache_toolbox). */
module InstanceRace {
  import opened Wrappers

  type Time = int
  type Client = nat
  /** The row's fields; rows have distinct cache keys, so one row is looked at by itself. */
  type Fields = string

  /**
    A lookup that has missed the cache, and one that has fetched the row but not yet set the cache. `readAt`
    and `readStep` only record the time and the number of the step that fetched it.
   */
  datatype Reading = Missed | Fetched(value: Fields, readAt: Time, readStep: nat)

  datatype Slot = Slot(value: Fields, readAt: Time, readStep: nat, setAt: Time)

  /** `taken` counts the steps of the run. */
  datatype State = State(now: Time, taken: nat, row: Option<Fields>, cache: Option<Slot>, readers: map<Client, Reading>)

  /**
    The atomic steps: `get_instance` is `Get`, then after a miss `Fetch` and, if there is a row, `Fill`;
    `save` and `delete` are `Write`, then `Purge`. `Evict` may happen at any time.
   */
  datatype Step =
    | Tick(d: nat)
    | Get(client: Client)
    | Fetch(client: Client)
    | Fill(client: Client)
    | Write(row: Option<Fields>)
    | Purge
    | Evict

  datatype Answer = Found(value: Fields) | DoesNotExist

  const START := State(0, 0, None, None, map[])

  predicate Live(s: State, timeout: int) {
    s.cache.Some? && s.now < s.cache.value.setAt + timeout
  }

  predicate HasMissed(s: State, c: Client) {
    c in s.readers && s.readers[c].Missed?
  }

  predicate HasFetched(s: State, c: Client) {
    c in s.readers && s.readers[c].Fetched?
  }

  function Effect(s: State, step: Step, timeout: int): State {
    match step
    case Tick(d) => s.(now := s.now + d)
    case Get(c) => if Live(s, timeout) then s else s.(readers := s.readers[c := Missed])
    case Fetch(c) =>
      if !HasMissed(s, c) then s
      else if s.row.None? then s.(readers := s.readers - {c})
      else s.(readers := s.readers[c := Fetched(s.row.value, s.now, s.taken)])
    case Fill(c) =>
      if !HasFetched(s, c) then s
      else
        var reading := s.readers[c];
        s.(cache := Some(Slot(reading.value, reading.readAt, reading.readStep, s.now)), readers := s.readers - {c})
    case Write(row) => s.(row := row)
    case Purge => s.(cache := None)
    case Evict => s.(cache := None)
  }

  function Next(s: State, step: Step, timeout: int): State {
    Effect(s, step, timeout).(taken := s.taken + 1)
  }

  /** What the step answers to a caller of `get_instance`, if it ends one of its calls. */
  function Answered(s: State, step: Step, timeout: int): Option<Answer> {
    match step
    case Get(_) => if Live(s, timeout) then Some(Found(s.cache.value.value)) else None
    case Fetch(c) => if HasMissed(s, c) && s.row.None? then Some(DoesNotExist) else None
    case Fill(c) => if HasFetched(s, c) then Some(Found(s.readers[c].value)) else None
    case _ => None
  }

  /** The number of the step that fetched what is answered; an absence is found by the step itself. */
  function ReadStep(s: State, step: Step, timeout: int): nat
    requires Answered(s, step, timeout).Some?
  {
    match step
    case Get(_) => s.cache.value.readStep
    case Fill(c) => s.readers[c].readStep
    case _ => s.taken
  }

  function Stored(s: State): Answer {
    if s.row.Some? then Found(s.row.value) else DoesNotExist
  }

  function Run(steps: seq<Step>, timeout: int): State {
    if steps == [] then START else Next(Run(steps[..|steps| - 1], timeout), steps[|steps| - 1], timeout)
  }

  lemma RunAppend(steps: seq<Step>, step: Step, timeout: int)
    ensures Run(steps + [step], timeout) == Next(Run(steps, timeout), step, timeout)
  {
    assert (steps + [step])[..|steps|] == steps;
  }

  lemma {:induction false} TakenCounts(steps: seq<Step>, timeout: int)
    ensures Run(steps, timeout).taken == |steps|
  {
    if steps != [] {
      TakenCounts(steps[..|steps| - 1], timeout);
    }
  }

  // ---------------------------------------------------------------- every run

  /** The value was the stored row when step number `at` of the run fetched it. */
  ghost predicate FetchedBy(steps: seq<Step>, timeout: int, value: Fields, readAt: Time, at: nat) {
    && at < |steps| && steps[at].Fetch?
    && Run(steps[..at], timeout).now == readAt && Run(steps[..at], timeout).row == Some(value)
  }

  lemma FetchedByLater(steps: seq<Step>, step: Step, timeout: int, value: Fields, readAt: Time, at: nat)
    requires FetchedBy(steps, timeout, value, readAt, at)
    ensures FetchedBy(steps + [step], timeout, value, readAt, at)
  {
    assert (steps + [step])[..at] == steps[..at];
  }

  ghost predicate SlotSound(steps: seq<Step>, timeout: int, s: State) {
    s.cache.Some? ==>
      && FetchedBy(steps, timeout, s.cache.value.value, s.cache.value.readAt, s.cache.value.readStep)
      && s.cache.value.setAt <= s.now
  }

  ghost predicate ReaderSound(steps: seq<Step>, timeout: int, s: State, c: Client) {
    HasFetched(s, c) ==> FetchedBy(steps, timeout, s.readers[c].value, s.readers[c].readAt, s.readers[c].readStep)
  }

  ghost predicate Sound(steps: seq<Step>, timeout: int, s: State) {
    SlotSound(steps, timeout, s) && forall c: Client :: ReaderSound(steps, timeout, s, c)
  }

  lemma SlotSoundNext(steps: seq<Step>, step: Step, timeout: int, s: State)
    requires s == Run(steps, timeout) && Sound(steps, timeout, s)
    ensures SlotSound(steps + [step], timeout, Next(s, step, timeout))
  {
    var t := Next(s, step, timeout);
    if t.cache.Some? {
      var slot := t.cache.value;
      assert step.Fill? ==> ReaderSound(steps, timeout, s, step.client);
      FetchedByLater(steps, step, timeout, slot.value, slot.readAt, slot.readStep);
    }
  }

  lemma ReaderSoundNext(steps: seq<Step>, step: Step, timeout: int, s: State, c: Client)
    requires s == Run(steps, timeout) && s.taken == |steps| && ReaderSound(steps, timeout, s, c)
    ensures ReaderSound(steps + [step], timeout, Next(s, step, timeout), c)
  {
    var t := Next(s, step, timeout);
    if HasFetched(t, c) {
      if HasFetched(s, c) && t.readers[c] == s.readers[c] {
        FetchedByLater(steps, step, timeout, s.readers[c].value, s.readers[c].readAt, s.readers[c].readStep);
      } else {
        assert (steps + [step])[..|steps|] == steps;
      }
    }
  }

  /** Over every run, what the cache and the lookups hold was the stored row when the recorded step fetched it. */
  lemma {:induction false} AlwaysSound(steps: seq<Step>, timeout: int)
    ensures Sound(steps, timeout, Run(steps, timeout))
  {
    if steps != [] {
      var init, step := steps[..|steps| - 1], steps[|steps| - 1];
      assert init + [step] == steps;
      AlwaysSound(init, timeout);
      TakenCounts(init, timeout);
      SlotSoundNext(init, step, timeout, Run(init, timeout));
      forall c: Client
        ensures ReaderSound(steps, timeout, Run(steps, timeout), c)
      {
        ReaderSoundNext(init, step, timeout, Run(init, timeout), c);
      }
    }
  }

  predicate SlotPrompt(s: State, delay: int) {
    s.cache.Some? ==> s.cache.value.setAt - s.cache.value.readAt <= delay
  }

  predicate StepPrompt(s: State, step: Step, delay: int) {
    step.Fill? && HasFetched(s, step.client) ==> s.now - s.readers[step.client].readAt <= delay
  }

  /** Every lookup of the run sets the cache at most `delay` after it fetched the row. */
  predicate ReadersPrompt(steps: seq<Step>, timeout: int, delay: int) {
    steps == [] ||
    var init := steps[..|steps| - 1];
    ReadersPrompt(init, timeout, delay) && StepPrompt(Run(init, timeout), steps[|steps| - 1], delay)
  }

  lemma PromptAppend(steps: seq<Step>, step: Step, timeout: int, delay: int)
    ensures ReadersPrompt(steps + [step], timeout, delay) <==>
            ReadersPrompt(steps, timeout, delay) && StepPrompt(Run(steps, timeout), step, delay)
  {
    assert (steps + [step])[..|steps|] == steps;
  }

  lemma SlotPromptNext(s: State, step: Step, timeout: int, delay: int)
    requires SlotPrompt(s, delay) && StepPrompt(s, step, delay)
    ensures SlotPrompt(Next(s, step, timeout), delay)
  {
  }

  lemma {:induction false} SlotsPrompt(steps: seq<Step>, timeout: int, delay: int)
    requires ReadersPrompt(steps, timeout, delay)
    ensures SlotPrompt(Run(steps, timeout), delay)
  {
    if steps != [] {
      SlotsPrompt(steps[..|steps| - 1], timeout, delay);
      SlotPromptNext(Run(steps[..|steps| - 1], timeout), steps[|steps| - 1], timeout, delay);
    }
  }

  /**
    Under any interleaving, a row that is found was stored less long ago than the timeout plus the slowest
    lookup's delay between fetching and setting; and a row is said not to exist only if it does not.
   */
  lemma BoundedStaleness(steps: seq<Step>, step: Step, timeout: int, delay: int)
    requires ReadersPrompt(steps + [step], timeout, delay) && timeout > 0 && delay >= 0
    requires Answered(Run(steps, timeout), step, timeout).Some?
    ensures var s := Run(steps, timeout);
            var answer, at := Answered(s, step, timeout).value, ReadStep(s, step, timeout);
            && at <= |steps| && answer == Stored(Run(steps[..at], timeout))
            && s.now - Run(steps[..at], timeout).now < timeout + delay
            && (answer == DoesNotExist ==> answer == Stored(s))
  {
    var s := Run(steps, timeout);
    PromptAppend(steps, step, timeout, delay);
    AlwaysSound(steps, timeout);
    TakenCounts(steps, timeout);
    if step.Get? {
      SlotsPrompt(steps, timeout, delay);
    } else if step.Fill? {
      assert ReaderSound(steps, timeout, s, step.client);
    } else {
      assert steps[..|steps|] == steps;
    }
  }

  // ---------------------------------------------------------------- undisturbed runs

  /** A write finds no lookup between fetching and setting, and its purge follows at once. */
  predicate Undisturbed(steps: seq<Step>, timeout: int) {
    steps == [] ||
    var init, step := steps[..|steps| - 1], steps[|steps| - 1];
    && Undisturbed(init, timeout)
    && (init != [] && init[|init| - 1].Write? ==> step.Purge?)
    && (step.Write? ==> forall c :: c in Run(init, timeout).readers ==> !HasFetched(Run(init, timeout), c))
  }

  /** All that the cache serves (unless its purge is due) and the lookups hold is the stored row. */
  ghost predicate Current(s: State, purgeDue: bool) {
    && (s.cache.Some? && !purgeDue ==> Some(s.cache.value.value) == s.row)
    && forall c: Client :: HasFetched(s, c) ==> Some(s.readers[c].value) == s.row
  }

  lemma CurrentNext(s: State, step: Step, timeout: int, purgeDue: bool)
    requires Current(s, purgeDue) && (purgeDue ==> step.Purge?)
    requires step.Write? ==> forall c :: c in s.readers ==> !HasFetched(s, c)
    ensures Current(Next(s, step, timeout), step.Write?)
  {
  }

  lemma {:induction false} AlwaysCurrent(steps: seq<Step>, timeout: int)
    requires Undisturbed(steps, timeout)
    ensures Current(Run(steps, timeout), steps != [] && steps[|steps| - 1].Write?)
  {
    if steps != [] {
      var init := steps[..|steps| - 1];
      AlwaysCurrent(init, timeout);
      CurrentNext(Run(init, timeout), steps[|steps| - 1], timeout, init != [] && init[|init| - 1].Write?);
    }
  }

  /** Over every run whose writes do not overlap with lookups, a lookup answers what is stored, at any timeout. */
  lemma UndisturbedIsExact(steps: seq<Step>, step: Step, timeout: int)
    requires Undisturbed(steps + [step], timeout) && Answered(Run(steps, timeout), step, timeout).Some?
    ensures Answered(Run(steps, timeout), step, timeout).value == Stored(Run(steps, timeout))
  {
    assert (steps + [step])[..|steps|] == steps && (steps + [step])[|steps|] == step;
    AlwaysCurrent(steps, timeout);
  }

  // ---------------------------------------------------------------- a disturbed run

  /** A lookup fetches the row, and meanwhile the row is deleted and its key purged. */
  function FetchAndDelete(value: Fields): seq<Step> {
    [Write(Some(value))] + [Get(0)] + [Fetch(0)] + [Write(None)] + [Purge]
  }

  /** The lookup then sets, `delay` late, what has been deleted, and `d` passes. */
  function SlowLookup(value: Fields, delay: nat, d: nat): seq<Step> {
    FetchAndDelete(value) + [Tick(delay)] + [Fill(0)] + [Tick(d)]
  }

  /** One more step of a run whose state and promptness are known. */
  lemma Extend(steps: seq<Step>, s: State, step: Step, timeout: int, delay: int) returns (t: State)
    requires Run(steps, timeout) == s && ReadersPrompt(steps, timeout, delay) && StepPrompt(s, step, delay)
    ensures t == Next(s, step, timeout) == Run(steps + [step], timeout) && ReadersPrompt(steps + [step], timeout, delay)
  {
    t := Next(s, step, timeout);
    RunAppend(steps, step, timeout);
    PromptAppend(steps, step, timeout, delay);
  }

  lemma FetchAndDeleteRun(value: Fields, timeout: int, delay: nat)
    ensures Run(FetchAndDelete(value), timeout) == State(0, 5, None, None, map[0 := Fetched(value, 0, 2)])
    ensures ReadersPrompt(FetchAndDelete(value), timeout, delay)
  {
    var save := Write(Some(value));
    var s := Extend([], START, save, timeout, delay);
    assert [] + [save] == [save];
    s := Extend([save], s, Get(0), timeout, delay);
    s := Extend([save] + [Get(0)], s, Fetch(0), timeout, delay);
    assert s == State(0, 3, Some(value), None, map[0 := Fetched(value, 0, 2)]);
    s := Extend([save] + [Get(0)] + [Fetch(0)], s, Write(None), timeout, delay);
    s := Extend([save] + [Get(0)] + [Fetch(0)] + [Write(None)], s, Purge, timeout, delay);
  }

  /** A row deleted under a lookup is found `timeout + delay - 1` after its deletion was complete, but no later. */
  lemma DeletedRowIsFound(value: Fields, timeout: int, delay: nat, d: nat)
    requires timeout > 0
    ensures var steps := SlowLookup(value, delay, d);
            var s := Run(steps, timeout);
            && ReadersPrompt(steps + [Get(1)], timeout, delay)
            && Run(FetchAndDelete(value), timeout).now == 0 && s.now == delay + d && Stored(s) == DoesNotExist
            && (Answered(s, Get(1), timeout) == Some(Found(value)) <==> d < timeout)
  {
    var deleted := FetchAndDelete(value);
    FetchAndDeleteRun(value, timeout, delay);
    var s := Extend(deleted, Run(deleted, timeout), Tick(delay), timeout, delay);
    s := Extend(deleted + [Tick(delay)], s, Fill(0), timeout, delay);
    s := Extend(deleted + [Tick(delay)] + [Fill(0)], s, Tick(d), timeout, delay);
    PromptAppend(SlowLookup(value, delay, d), Get(1), timeout, delay);
  }
}
