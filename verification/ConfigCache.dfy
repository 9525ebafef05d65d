/** Cached configuration entries, by interleaved steps and by whole calls (common/djangoapps/config_models). */
module ConfigCache {
  import opened Wrappers

  type Time = int
  type UserId = nat
  type Fields = string

  /** A configuration row. Rows are only ever inserted, and numbered from 1. */
  datatype Entry = Entry(id: nat, fields: Fields, changedBy: Option<UserId>, changeDate: Time)

  /** The first row by falling `change_date`; of rows with one date, the one inserted last. */
  function Newest(db: seq<Entry>): Option<Entry> {
    if db == [] then None
    else
      var last, before := db[|db| - 1], Newest(db[..|db| - 1]);
      if before.Some? && before.value.changeDate > last.changeDate then before else Some(last)
  }

  lemma {:induction false} NewestHasLatestDate(db: seq<Entry>)
    requires db != []
    ensures Newest(db).Some? && exists i :: 0 <= i < |db| && db[i] == Newest(db).value
    ensures forall i :: 0 <= i < |db| ==> db[i].changeDate <= Newest(db).value.changeDate
  {
    if |db| > 1 {
      NewestHasLatestDate(db[..|db| - 1]);
    }
  }

  /** Rows are numbered in the order they were inserted, and dated no later than now. */
  predicate Numbered(db: seq<Entry>, now: Time) {
    forall i :: 0 <= i < |db| ==> db[i].id == i + 1 && db[i].changeDate <= now
  }

  /** The value is dated later than the row. */
  predicate Outranks(value: Option<Entry>, row: Entry) {
    value.Some? && row.changeDate < value.value.changeDate
  }

  predicate OutranksFrom(value: Option<Entry>, db: seq<Entry>, k: nat) {
    forall i :: k <= i < |db| ==> Outranks(value, db[i])
  }

  /** The newest row stays the newest exactly if every row inserted after it was looked up has an earlier date. */
  lemma {:induction false} NewestAmongFirst(db: seq<Entry>, k: nat, now: Time)
    requires Numbered(db, now) && k <= |db|
    ensures Newest(db) == Newest(db[..k]) <==> OutranksFrom(Newest(db[..k]), db, k)
  {
    if k == |db| {
      assert db[..k] == db;
    } else {
      var init := db[..|db| - 1];
      assert init[..k] == db[..k];
      NewestAmongFirst(init, k, now);
      NewestId(db[..k]);
      assert OutranksFrom(Newest(db[..k]), db, k) <==>
             OutranksFrom(Newest(db[..k]), init, k) && Outranks(Newest(db[..k]), db[|db| - 1]);
    }
  }

  lemma NewestId(db: seq<Entry>)
    requires forall i :: 0 <= i < |db| ==> db[i].id == i + 1
    ensures Newest(db).Some? ==> Newest(db).value.id <= |db|
  {
    if db != [] {
      NewestHasLatestDate(db);
    }
  }

  lemma LatestIsNewest(db: seq<Entry>, entry: Entry, now: Time)
    requires Numbered(db, now) && entry.changeDate >= now
    ensures Newest(db + [entry]) == Some(entry)
  {
    assert (db + [entry])[..|db|] == db;
    if db != [] {
      NewestHasLatestDate(db);
    }
  }

  // ---------------------------------------------------------------- interleaved steps

  type Client = nat

  /**
    A reader that has missed the cache, and one that has read the table but not yet set the cache. `readAt`
    and `readStep` only record the time and the number of the step that read.
   */
  datatype Reading = Missed | Read(value: Option<Entry>, readAt: Time, readStep: nat)

  /** `readAt`, `readStep` and `setAt` only record when the slot's value was read and set. */
  datatype TimedSlot = TimedSlot(value: Option<Entry>, readAt: Time, readStep: nat, setAt: Time)

  /** `writers` have read the clock for a row they have not inserted yet; `taken` counts the steps of the run. */
  datatype State = State(now: Time, taken: nat, db: seq<Entry>, cache: Option<TimedSlot>, readers: map<Client, Reading>,
                         writers: map<Client, Time>)

  /**
    The atomic steps of concurrent callers: `current` is `Get`, then after a miss `Query` and `Fill`;
    `save` is `Stamp`, which reads the clock for `change_date`, `Insert` and `Purge`. `Evict` may happen at any time.
   */
  datatype Step =
    | Tick(d: nat)
    | Get(client: Client)
    | Query(client: Client)
    | Fill(client: Client)
    | Stamp(client: Client)
    | Insert(client: Client, fields: Fields, changedBy: Option<UserId>)
    | Purge
    | Evict

  const START := State(0, 0, [], None, map[], map[])

  predicate Live(s: State, timeout: int) {
    s.cache.Some? && s.now < s.cache.value.setAt + timeout
  }

  predicate HasRead(s: State, c: Client) {
    c in s.readers && s.readers[c].Read?
  }

  function Effect(s: State, step: Step, timeout: int): State {
    match step
    case Tick(d) => s.(now := s.now + d)
    case Get(c) => if Live(s, timeout) then s else s.(readers := s.readers[c := Missed])
    case Query(c) =>
      if c in s.readers && s.readers[c].Missed?
      then s.(readers := s.readers[c := Read(Newest(s.db), s.now, s.taken)])
      else s
    case Fill(c) =>
      if HasRead(s, c)
      then s.(cache := Some(TimedSlot(s.readers[c].value, s.readers[c].readAt, s.readers[c].readStep, s.now)),
              readers := s.readers - {c})
      else s
    case Stamp(c) => s.(writers := s.writers[c := s.now])
    case Insert(c, fields, changedBy) =>
      if c in s.writers
      then s.(db := s.db + [Entry(|s.db| + 1, fields, changedBy, s.writers[c])], writers := s.writers - {c})
      else s
    case Purge => s.(cache := None)
    case Evict => s.(cache := None)
  }

  function Next(s: State, step: Step, timeout: int): State {
    Effect(s, step, timeout).(taken := s.taken + 1)
  }

  /** What the step returns to a caller of `current`, if it ends one of its calls. */
  function Returned(s: State, step: Step, timeout: int): Option<Option<Entry>> {
    match step
    case Get(_) => if Live(s, timeout) then Some(s.cache.value.value) else None
    case Fill(c) => if HasRead(s, c) then Some(s.readers[c].value) else None
    case _ => None
  }

  /** The number of the step that read what is returned. */
  function ReadStep(s: State, step: Step, timeout: int): nat
    requires Returned(s, step, timeout).Some?
  {
    if step.Get? then s.cache.value.readStep else s.readers[step.client].readStep
  }

  function Run(steps: seq<Step>, timeout: int): State {
    if steps == [] then START else Next(Run(steps[..|steps| - 1], timeout), steps[|steps| - 1], timeout)
  }

  lemma RunAppend(steps: seq<Step>, step: Step, timeout: int)
    ensures Run(steps + [step], timeout) == Next(Run(steps, timeout), step, timeout)
  {
    assert (steps + [step])[..|steps|] == steps;
  }

  predicate Timely(s: State) {
    Numbered(s.db, s.now) && forall c :: c in s.writers ==> s.writers[c] <= s.now
  }

  lemma RunThreeMore(steps: seq<Step>, a: Step, b: Step, c: Step, timeout: int)
    ensures Run(steps + [a] + [b] + [c], timeout) ==
            Next(Next(Next(Run(steps, timeout), a, timeout), b, timeout), c, timeout)
  {
    RunAppend(steps, a, timeout);
    RunAppend(steps + [a], b, timeout);
    RunAppend(steps + [a] + [b], c, timeout);
  }

  lemma TimelyNext(s: State, step: Step, timeout: int)
    requires Timely(s)
    ensures Timely(Next(s, step, timeout))
  {
  }

  /** Over every run, rows are numbered as they are inserted, and nothing is dated in the future. */
  lemma {:induction false} AlwaysTimely(steps: seq<Step>, timeout: int)
    ensures Timely(Run(steps, timeout)) && Run(steps, timeout).taken == |steps|
  {
    if steps != [] {
      AlwaysTimely(steps[..|steps| - 1], timeout);
      TimelyNext(Run(steps[..|steps| - 1], timeout), steps[|steps| - 1], timeout);
    }
  }

  lemma RowsNext(s: State, step: Step, timeout: int)
    ensures var db := Next(s, step, timeout).db; |s.db| <= |db| && db[..|s.db|] == s.db
  {
  }

  lemma GrowsFurther(a: seq<Entry>, b: seq<Entry>, c: seq<Entry>)
    requires |a| <= |b| <= |c| && b[..|a|] == a && c[..|b|] == b
    ensures c[..|a|] == a
  {
  }

  lemma {:induction false} TableGrows(steps: seq<Step>, k: nat, timeout: int)
    requires k <= |steps|
    ensures var db, earlier := Run(steps, timeout).db, Run(steps[..k], timeout).db;
            |earlier| <= |db| && db[..|earlier|] == earlier
  {
    if k == |steps| {
      assert steps[..k] == steps;
    } else {
      var init, step := steps[..|steps| - 1], steps[|steps| - 1];
      TableGrows(init, k, timeout);
      RowsNext(Run(init, timeout), step, timeout);
      assert init[..k] == steps[..k];
      GrowsFurther(Run(steps[..k], timeout).db, Run(init, timeout).db, Run(steps, timeout).db);
    }
  }

  /** The newest entry of step `k` is the newest still exactly if it is dated later than all rows inserted since. */
  lemma NewestSince(steps: seq<Step>, k: nat, timeout: int)
    requires k <= |steps|
    ensures var db, earlier := Run(steps, timeout).db, Run(steps[..k], timeout).db;
            Newest(db) == Newest(earlier) <==> OutranksFrom(Newest(earlier), db, |earlier|)
  {
    TableGrows(steps, k, timeout);
    AlwaysTimely(steps, timeout);
    NewestAmongFirst(Run(steps, timeout).db, |Run(steps[..k], timeout).db|, Run(steps, timeout).now);
  }

  /** The value was read from the table, then its newest entry, by step number `at` of the run. */
  ghost predicate ReadBy(steps: seq<Step>, timeout: int, value: Option<Entry>, readAt: Time, at: nat) {
    && at < |steps| && steps[at].Query?
    && Run(steps[..at], timeout).now == readAt && Newest(Run(steps[..at], timeout).db) == value
  }

  lemma ReadByLater(steps: seq<Step>, step: Step, timeout: int, value: Option<Entry>, readAt: Time, at: nat)
    requires ReadBy(steps, timeout, value, readAt, at)
    ensures ReadBy(steps + [step], timeout, value, readAt, at)
  {
    assert (steps + [step])[..at] == steps[..at];
  }

  lemma ReadByNow(steps: seq<Step>, step: Step, timeout: int)
    requires step.Query?
    ensures var s := Run(steps, timeout); ReadBy(steps + [step], timeout, Newest(s.db), s.now, |steps|)
  {
    assert (steps + [step])[..|steps|] == steps;
  }

  ghost predicate SlotSound(steps: seq<Step>, timeout: int, s: State) {
    s.cache.Some? ==>
      && ReadBy(steps, timeout, s.cache.value.value, s.cache.value.readAt, s.cache.value.readStep)
      && s.cache.value.setAt <= s.now
  }

  ghost predicate ReaderSound(steps: seq<Step>, timeout: int, s: State, c: Client) {
    HasRead(s, c) ==>
      && ReadBy(steps, timeout, s.readers[c].value, s.readers[c].readAt, s.readers[c].readStep)
      && steps[s.readers[c].readStep].client == c
  }

  /** Everything the cache and the readers hold was the newest entry when the recorded step read it. */
  ghost predicate Sound(steps: seq<Step>, timeout: int, s: State) {
    SlotSound(steps, timeout, s) && forall c: Client :: ReaderSound(steps, timeout, s, c)
  }

  lemma SlotSoundNext(steps: seq<Step>, step: Step, timeout: int)
    requires Sound(steps, timeout, Run(steps, timeout))
    ensures SlotSound(steps + [step], timeout, Run(steps + [step], timeout))
  {
    var s, t := Run(steps, timeout), Run(steps + [step], timeout);
    RunAppend(steps, step, timeout);
    if t.cache.Some? {
      var slot := t.cache.value;
      assert step.Fill? ==> ReaderSound(steps, timeout, s, step.client);
      ReadByLater(steps, step, timeout, slot.value, slot.readAt, slot.readStep);
    }
  }

  lemma ReaderSoundNext(steps: seq<Step>, step: Step, timeout: int, c: Client)
    requires Sound(steps, timeout, Run(steps, timeout))
    ensures ReaderSound(steps + [step], timeout, Run(steps + [step], timeout), c)
  {
    var s, t := Run(steps, timeout), Run(steps + [step], timeout);
    RunAppend(steps, step, timeout);
    AlwaysTimely(steps, timeout);
    if HasRead(t, c) {
      if HasRead(s, c) && t.readers[c] == s.readers[c] {
        assert ReaderSound(steps, timeout, s, c);
        ReadByLater(steps, step, timeout, s.readers[c].value, s.readers[c].readAt, s.readers[c].readStep);
      } else {
        ReadByNow(steps, step, timeout);
      }
    }
  }

  lemma {:induction false} AlwaysSound(steps: seq<Step>, timeout: int)
    ensures Sound(steps, timeout, Run(steps, timeout))
  {
    if steps != [] {
      var init, step := steps[..|steps| - 1], steps[|steps| - 1];
      assert init + [step] == steps;
      AlwaysSound(init, timeout);
      SlotSoundNext(init, step, timeout);
      forall c: Client
        ensures ReaderSound(steps, timeout, Run(steps, timeout), c)
      {
        ReaderSoundNext(init, step, timeout, c);
      }
    }
  }

  /**
    Under any interleaving, what `current` returns was the newest entry when the query that read it ran, and
    is so still exactly if every row inserted since is dated earlier: none was, or by an overlapping save.
   */
  lemma NewestReturnedExactly(steps: seq<Step>, step: Step, timeout: int)
    requires Returned(Run(steps, timeout), step, timeout).Some?
    ensures var s := Run(steps, timeout);
            var value, at := Returned(s, step, timeout).value, ReadStep(s, step, timeout);
            && at < |steps| && steps[at].Query? && (step.Fill? ==> steps[at].client == step.client)
            && Newest(Run(steps[..at], timeout).db) == value
            && (value == Newest(s.db) <==> OutranksFrom(value, s.db, |Run(steps[..at], timeout).db|))
  {
    var s := Run(steps, timeout);
    AlwaysSound(steps, timeout);
    if step.Fill? {
      assert ReaderSound(steps, timeout, s, step.client);
    }
    NewestSince(steps, ReadStep(s, step, timeout), timeout);
  }

  /** The slot in the cache was set at most `delay` after its value was read. */
  predicate SlotPrompt(s: State, delay: int) {
    s.cache.Some? ==> s.cache.value.setAt - s.cache.value.readAt <= delay
  }

  predicate StepPrompt(s: State, step: Step, delay: int) {
    step.Fill? && HasRead(s, step.client) ==> s.now - s.readers[step.client].readAt <= delay
  }

  /** Every reader of the run sets the cache at most `delay` after it read the table. */
  predicate ReadersPrompt(steps: seq<Step>, timeout: int, delay: int) {
    steps == [] ||
    var init := steps[..|steps| - 1];
    ReadersPrompt(init, timeout, delay) && StepPrompt(Run(init, timeout), steps[|steps| - 1], delay)
  }

  lemma PromptAppend(steps: seq<Step>, step: Step, timeout: int, delay: int)
    ensures ReadersPrompt(steps + [step], timeout, delay) <==>
            ReadersPrompt(steps, timeout, delay) && StepPrompt(Run(steps, timeout), step, delay)
  {
    assert (steps + [step])[..|steps|] == steps;
  }

  lemma {:induction false} SlotsPrompt(steps: seq<Step>, timeout: int, delay: int)
    requires ReadersPrompt(steps, timeout, delay)
    ensures SlotPrompt(Run(steps, timeout), delay)
  {
    if steps != [] {
      var init, step := steps[..|steps| - 1], steps[|steps| - 1];
      SlotsPrompt(init, timeout, delay);
      SlotPromptNext(Run(init, timeout), step, timeout, delay);
    }
  }

  lemma SlotPromptNext(s: State, step: Step, timeout: int, delay: int)
    requires SlotPrompt(s, delay) && StepPrompt(s, step, delay)
    ensures SlotPrompt(Next(s, step, timeout), delay)
  {
  }

  /**
    Under any interleaving, whatever `current` returns was the newest entry at some moment of the run less
    long ago than the cache timeout plus the slowest reader's delay between reading and setting.
   */
  lemma BoundedStaleness(steps: seq<Step>, step: Step, timeout: int, delay: int)
    requires ReadersPrompt(steps + [step], timeout, delay) && timeout > 0
    requires Returned(Run(steps, timeout), step, timeout).Some?
    ensures var s := Run(steps, timeout);
            var value, at := Returned(s, step, timeout).value, ReadStep(s, step, timeout);
            && at < |steps| && Newest(Run(steps[..at], timeout).db) == value
            && s.now - Run(steps[..at], timeout).now < timeout + delay
  {
    var s := Run(steps, timeout);
    PromptAppend(steps, step, timeout, delay);
    AlwaysSound(steps, timeout);
    if step.Get? {
      SlotsPrompt(steps, timeout, delay);
    } else {
      assert ReaderSound(steps, timeout, s, step.client);
    }
  }

  /** A reader queries, and meanwhile a save completes. */
  function ReadAndSave(fields: Fields): seq<Step> {
    [Get(0)] + [Query(0)] + [Stamp(1)] + [Insert(1, fields, None)] + [Purge]
  }

  /** The reader then sets, `delay` late, what the save has replaced, and `d` passes. */
  function SlowReader(fields: Fields, delay: nat, d: nat): seq<Step> {
    ReadAndSave(fields) + [Tick(delay)] + [Fill(0)] + [Tick(d)]
  }

  /** One more step of a run whose state and promptness are known. */
  lemma Extend(steps: seq<Step>, s: State, step: Step, timeout: int, delay: int) returns (t: State)
    requires Run(steps, timeout) == s && ReadersPrompt(steps, timeout, delay) && StepPrompt(s, step, delay)
    ensures t == Next(s, step, timeout) == Run(steps + [step], timeout) && ReadersPrompt(steps + [step], timeout, delay)
  {
    t := Next(s, step, timeout);
    RunAppend(steps, step, timeout);
    PromptAppend(steps, step, timeout, delay);
  }

  lemma ReadAndSaveRun(fields: Fields, timeout: int, delay: nat)
    requires timeout > 0
    ensures Run(ReadAndSave(fields), timeout) ==
            State(0, 5, [Entry(1, fields, None, 0)], None, map[0 := Read(None, 0, 1)], map[])
    ensures ReadersPrompt(ReadAndSave(fields), timeout, delay)
  {
    var s := Extend([], START, Get(0), timeout, delay);
    assert [] + [Get(0)] == [Get(0)];
    s := Extend([Get(0)], s, Query(0), timeout, delay);
    assert s == State(0, 2, [], None, map[0 := Read(None, 0, 1)], map[]);
    s := Extend([Get(0)] + [Query(0)], s, Stamp(1), timeout, delay);
    s := Extend([Get(0)] + [Query(0)] + [Stamp(1)], s, Insert(1, fields, None), timeout, delay);
    assert s == State(0, 4, [Entry(1, fields, None, 0)], None, map[0 := Read(None, 0, 1)], map[]);
    s := Extend([Get(0)] + [Query(0)] + [Stamp(1)] + [Insert(1, fields, None)], s, Purge, timeout, delay);
  }

  lemma SlowReaderRun(fields: Fields, timeout: int, delay: nat, d: nat)
    requires timeout > 0
    ensures var s := Run(SlowReader(fields, delay, d), timeout);
            && s.db == [Entry(1, fields, None, 0)] && s.now == delay + d
            && s.cache == Some(TimedSlot(None, 0, 1, delay))
    ensures ReadersPrompt(SlowReader(fields, delay, d), timeout, delay)
  {
    var saved := ReadAndSave(fields);
    ReadAndSaveRun(fields, timeout, delay);
    var s := Extend(saved, Run(saved, timeout), Tick(delay), timeout, delay);
    s := Extend(saved + [Tick(delay)], s, Fill(0), timeout, delay);
    s := Extend(saved + [Tick(delay)] + [Fill(0)], s, Tick(d), timeout, delay);
  }

  /**
    The bound is attained for every timeout and delay: the replaced value is returned, `timeout + delay - 1`
    after the replacement was saved and the last moment the value was newest, but no later.
   */
  lemma StalenessAttained(fields: Fields, timeout: int, delay: nat, d: nat)
    requires timeout > 0
    ensures var steps := SlowReader(fields, delay, d);
            var s := Run(steps, timeout);
            && ReadersPrompt(steps + [Get(1)], timeout, delay) && s.now == delay + d
            && (Returned(s, Get(1), timeout) == Some(None) <==> d < timeout)
            && (forall k :: 5 <= k <= |steps| ==> Newest(Run(steps[..k], timeout).db) != None)
            && (forall k :: 0 <= k < 5 ==> Run(steps[..k], timeout).now == 0)
  {
    var saved, steps := ReadAndSave(fields), SlowReader(fields, delay, d);
    SlowReaderRun(fields, timeout, delay, d);
    ReadAndSaveRun(fields, timeout, delay);
    SlowReaderStart(fields, delay, d);
    RowsSince(steps, |saved|, timeout);
    NoTimeUntil(steps, |saved|, timeout);
    PromptAppend(steps, Get(1), timeout, delay);
  }

  lemma SlowReaderStart(fields: Fields, delay: nat, d: nat)
    ensures var saved, steps := ReadAndSave(fields), SlowReader(fields, delay, d);
            && |saved| == 5 <= |steps| && steps[..5] == saved && forall i :: 0 <= i < 5 ==> !steps[i].Tick?
  {
  }

  lemma RowsSince(steps: seq<Step>, k: nat, timeout: int)
    requires k <= |steps| && Run(steps[..k], timeout).db != []
    ensures forall i :: k <= i <= |steps| ==> Newest(Run(steps[..i], timeout).db) != None
  {
    forall i | k <= i <= |steps|
      ensures Newest(Run(steps[..i], timeout).db) != None
    {
      TableGrows(steps[..i], k, timeout);
      assert steps[..i][..k] == steps[..k];
      NewestHasLatestDate(Run(steps[..i], timeout).db);
    }
  }

  lemma NoTimeUntil(steps: seq<Step>, n: nat, timeout: int)
    requires n <= |steps| && forall i :: 0 <= i < n ==> !steps[i].Tick?
    ensures forall k :: 0 <= k < n ==> Run(steps[..k], timeout).now == 0
  {
    forall k | 0 <= k < n
      ensures Run(steps[..k], timeout).now == 0
    {
      assert forall i :: 0 <= i < k ==> steps[..k][i] == steps[i];
      NoTimePasses(steps[..k], timeout);
    }
  }

  lemma {:induction false} NoTimePasses(steps: seq<Step>, timeout: int)
    requires forall i :: 0 <= i < |steps| ==> !steps[i].Tick?
    ensures Run(steps, timeout).now == 0
  {
    if steps != [] {
      NoTimePasses(steps[..|steps| - 1], timeout);
    }
  }

  /**
    Of two overlapping saves the one that reads the clock first may insert last: its entry comes last in the
    table, and yet the other one is the newest.
   */
  lemma LastInsertedNotNewest(first: Fields, second: Fields, timeout: int)
    ensures var steps := [Stamp(0)] + [Tick(1)] + [Stamp(1)] + [Insert(1, first, None)] + [Insert(0, second, None)];
            var db := Run(steps, timeout).db;
            db == [Entry(1, first, None, 1), Entry(2, second, None, 0)] && Newest(db) == Some(db[0])
  {
    RunAppend([], Stamp(0), timeout);
    assert [] + [Stamp(0)] == [Stamp(0)];
    RunAppend([Stamp(0)], Tick(1), timeout);
    RunAppend([Stamp(0)] + [Tick(1)], Stamp(1), timeout);
    RunAppend([Stamp(0)] + [Tick(1)] + [Stamp(1)], Insert(1, first, None), timeout);
    RunAppend([Stamp(0)] + [Tick(1)] + [Stamp(1)] + [Insert(1, first, None)], Insert(0, second, None), timeout);
    NewestOfTwo(Entry(1, first, None, 1), Entry(2, second, None, 0));
  }

  lemma NewestOfTwo(a: Entry, b: Entry)
    requires b.changeDate < a.changeDate
    ensures Newest([a] + [b]) == Some(a) && [a] + [b] == [a, b]
  {
    var both := [a] + [b];
    assert both[..1] == [a] && both[1] == b;
    assert [a][..0] == [] && Newest([a]) == Some(a);
  }

  // ---------------------------------------------------------------- whole calls

  /** No call is under way. */
  predicate Quiet(s: State) {
    s.readers == map[] && s.writers == map[]
  }

  predicate CacheCurrent(s: State, timeout: int) {
    Live(s, timeout) ==> s.cache.value.value == Newest(s.db)
  }

  /** A whole read, run without interruption, returns the newest entry and leaves the cache right. */
  lemma WholeReadIsExact(s: State, c: Client, timeout: int)
    requires CacheCurrent(s, timeout) && Quiet(s) && !Live(s, timeout)
    ensures var a := Next(s, Get(c), timeout);
            var b := Next(a, Query(c), timeout);
            var t := Next(b, Fill(c), timeout);
            && CacheCurrent(t, timeout) && Quiet(t) && Some(Newest(s.db)) == Returned(b, Fill(c), timeout)
            && t == State(s.now, s.taken + 3, s.db, Some(TimedSlot(Newest(s.db), s.now, s.taken + 1, s.now)),
                          map[], map[])
  {
  }

  /** So it does after any run that leaves no call under way. */
  lemma ReadRun(steps: seq<Step>, timeout: int)
    requires var s := Run(steps, timeout); CacheCurrent(s, timeout) && Quiet(s) && !Live(s, timeout)
    ensures var s, t := Run(steps, timeout), Run(steps + [Get(0)] + [Query(0)] + [Fill(0)], timeout);
            && t.db == s.db && t.now == s.now && Quiet(t) && CacheCurrent(t, timeout)
            && t.cache.Some? && t.cache.value.value == Newest(s.db) && t.cache.value.setAt == s.now
  {
    WholeReadIsExact(Run(steps, timeout), 0, timeout);
    RunThreeMore(steps, Get(0), Query(0), Fill(0), timeout);
  }

  /** A whole save, run without interruption, makes its entry the newest and leaves nothing stale behind. */
  lemma WholeSaveIsExact(s: State, fields: Fields, changedBy: Option<UserId>, timeout: int)
    requires Timely(s) && Quiet(s)
    ensures var t := Next(Next(Next(s, Stamp(0), timeout), Insert(0, fields, changedBy), timeout), Purge, timeout);
            var entry := Entry(|s.db| + 1, fields, changedBy, s.now);
            && t == s.(taken := s.taken + 3, db := s.db + [entry], cache := None)
            && Newest(t.db) == Some(entry) && CacheCurrent(t, timeout)
  {
    LatestIsNewest(s.db, Entry(|s.db| + 1, fields, changedBy, s.now), s.now);
    assert s.writers[0 := s.now] - {0} == s.writers;
  }

  /** A cached value and when it expires. */
  datatype Slot = Slot(value: Option<Entry>, expires: Time)

  function Visible(cache: Option<TimedSlot>, timeout: int): Option<Slot> {
    match cache
    case Some(slot) => Some(Slot(slot.value, slot.setAt + timeout))
    case None => None
  }

  /** `current` and `save` called one at a time. The ghost history is the run of atomic steps they amount to. */
  class Configuration {
    const timeout: int
    var db: seq<Entry>
    var cache: Option<Slot>
    var now: Time
    ghost var history: seq<Step>

    ghost predicate Valid()
      reads this
    {
      var s := Run(history, timeout);
      && s.db == db && s.now == now && Visible(s.cache, timeout) == cache
      && Quiet(s) && CacheCurrent(s, timeout)
    }

    constructor (timeout: int)
      ensures this.timeout == timeout && Valid() && db == [] && history == []
    {
      this.timeout := timeout;
      db, cache, now, history := [], None, 0, [];
    }

    method Wait(d: nat)
      requires Valid()
      modifies this`now, this`history
      ensures Valid() && now == old(now) + d && history == old(history) + [Tick(d)]
    {
      RunAppend(history, Tick(d), timeout);
      now := now + d;
      history := history + [Tick(d)];
    }

    method Drop()
      requires Valid()
      modifies this`cache, this`history
      ensures Valid() && cache == None && history == old(history) + [Evict]
    {
      RunAppend(history, Evict, timeout);
      cache := None;
      history := history + [Evict];
    }

    method Save(fields: Fields, changedBy: Option<UserId>)
      requires Valid()
      modifies this`db, this`cache, this`history
      ensures Valid() && history == old(history) + [Stamp(0)] + [Insert(0, fields, changedBy)] + [Purge]
      ensures db == old(db) + [Entry(|old(db)| + 1, fields, changedBy, now)] && cache == None
      ensures Newest(db) == Some(db[|db| - 1])
    {
      AlwaysTimely(history, timeout);
      WholeSaveIsExact(Run(history, timeout), fields, changedBy, timeout);
      RunThreeMore(history, Stamp(0), Insert(0, fields, changedBy), Purge, timeout);
      history := history + [Stamp(0)] + [Insert(0, fields, changedBy)] + [Purge];
      db := db + [Entry(|db| + 1, fields, changedBy, now)];
      cache := None;
    }

    /** The active configuration: always exactly the row with the latest date. */
    method Current() returns (current: Option<Entry>)
      requires Valid()
      modifies this`cache, this`history
      ensures Valid() && current == Newest(db)
      ensures cache == if old(cache.Some? && now < cache.value.expires) then old(cache)
                       else Some(Slot(current, now + timeout))
      ensures history == old(history) + [Get(0)] || history == old(history) + [Get(0)] + [Query(0)] + [Fill(0)]
    {
      if cache.Some? && now < cache.value.expires {
        RunAppend(history, Get(0), timeout);
        history := history + [Get(0)];
        return cache.value.value;
      }
      current := Refresh();
    }

    /** The way past the cache: the newest row is read, and set. */
    method Refresh() returns (current: Option<Entry>)
      requires Valid() && !(cache.Some? && now < cache.value.expires)
      modifies this`cache, this`history
      ensures Valid() && current == Newest(db) && cache == Some(Slot(current, now + timeout))
      ensures history == old(history) + [Get(0)] + [Query(0)] + [Fill(0)]
    {
      ReadRun(history, timeout);
      history := history + [Get(0)] + [Query(0)] + [Fill(0)];
      current := Newest(db);
      cache := Some(Slot(current, now + timeout));
    }

    /** The admin's `revert`: a selected row is saved again as a new one. */
    method Revert(selected: seq<nat>, admin: UserId) returns (done: bool)
      requires Valid() && forall j :: 0 <= j < |selected| ==> selected[j] < |db|
      modifies this`db, this`cache, this`history
      ensures Valid() && done == (|selected| == 1)
      ensures if done
              then
                && db == old(db) + [Entry(|old(db)| + 1, old(db)[selected[0]].fields, Some(admin), now)]
                && cache == None && Newest(db) == Some(db[|db| - 1])
              else db == old(db) && cache == old(cache)
    {
      if |selected| != 1 {
        return false;
      }
      var target := db[selected[0]];
      target := target.(changedBy := Some(admin));
      Save(target.fields, target.changedBy);
      return true;
    }
  }
}
