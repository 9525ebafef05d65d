/** Course enrollments and the events they emit (common/djangoapps/student/models.py). */
module Enrollment {
  import opened Wrappers

  type UserId = nat
  type CourseId = nat
  type Key = (UserId, CourseId)

  datatype Row = Row(mode: string, active: bool)

  datatype Kind = Activated | Deactivated | ModeChanged

  /** One call of `emit_event`. */
  datatype Event = Event(kind: Kind, key: Key, mode: string)

  const DEFAULT_MODE := "honor"

  datatype State = State(rows: map<Key, Row>, log: seq<Event>)

  /**
    The requested change of one record. `receiverRaises` says that a receiver of the unenrollment signal,
    which is sent after the row is saved and before the event is emitted, raises.
   */
  datatype Change = Change(mode: Option<string>, active: Option<bool>, receiverRaises: bool)

  datatype Op =
    | GetOrCreate(key: Key)
    | Enroll(key: Key, mode: Option<string>)
    | Unenroll(key: Key, receiverRaises: bool)
    | Update(key: Key, change: Change)

  function ActivationChanges(row: Row, ch: Change): bool {
    ch.active.Some? && ch.active.value != row.active
  }

  function ModeChanges(row: Row, ch: Change): bool {
    ch.mode.Some? && ch.mode.value != row.mode
  }

  function Changed(row: Row, ch: Change): Row {
    Row(if ch.mode.Some? then ch.mode.value else row.mode, if ch.active.Some? then ch.active.value else row.active)
  }

  /** Whether the call ends in the receiver's exception, its events unsent. */
  predicate Interrupted(row: Row, ch: Change) {
    ActivationChanges(row, ch) && row.active && ch.receiverRaises
  }

  function Events(key: Key, row: Row, ch: Change): seq<Event> {
    var after := Changed(row, ch);
    if Interrupted(row, ch) then []
    else
      (if ActivationChanges(row, ch)
       then [Event(if after.active then Activated else Deactivated, key, after.mode)] else [])
      + (if ModeChanges(row, ch) then [Event(ModeChanged, key, after.mode)] else [])
  }

  function Created(s: State, key: Key): State {
    if key in s.rows then s else s.(rows := s.rows[key := Row(DEFAULT_MODE, false)])
  }

  function Updated(s: State, key: Key, ch: Change): State {
    if key !in s.rows then s
    else State(s.rows[key := Changed(s.rows[key], ch)], s.log + Events(key, s.rows[key], ch))
  }

  function ChangeOf(op: Op): Change {
    match op
    case GetOrCreate(_) => Change(None, None, false)
    case Enroll(_, mode) => Change(mode, Some(true), false)
    case Unenroll(_, raises) => Change(None, Some(false), raises)
    case Update(_, change) => change
  }

  predicate Creates(op: Op) {
    op.GetOrCreate? || op.Enroll?
  }

  function Step(s: State, op: Op): State {
    Updated(if Creates(op) then Created(s, op.key) else s, op.key, ChangeOf(op))
  }

  predicate InCourse(rows: map<Key, Row>, c: CourseId, k: Key) {
    k in rows && k.1 == c && rows[k].active
  }

  /** The active rows of a course. */
  function ActiveIn(rows: map<Key, Row>, c: CourseId): set<Key> {
    set k | k in rows && InCourse(rows, c, k)
  }

  function InMode(rows: map<Key, Row>, c: CourseId, mode: string): set<Key> {
    set k | k in rows && InCourse(rows, c, k) && rows[k].mode == mode
  }

  datatype Outcome = Ok | NotFound | ReceiverRaised

  class Enrollments {
    var rows: map<Key, Row>
    var log: seq<Event>

    function Abs(): State
      reads this
    {
      State(rows, log)
    }

    constructor ()
      ensures Abs() == State(map[], [])
    {
      rows, log := map[], [];
    }

    method GetOrCreateEnrollment(key: Key)
      modifies this
      ensures Abs() == Created(old(Abs()), key) && key in rows
    {
      if key !in rows {
        // the column default is an active row; it is corrected before anyone else looks
        rows := rows[key := Row(DEFAULT_MODE, true)];
        var enrollment := rows[key];
        enrollment := enrollment.(mode := DEFAULT_MODE);
        enrollment := enrollment.(active := false);
        rows := rows[key := enrollment];
      }
    }

    method UpdateEnrollment(key: Key, ch: Change) returns (outcome: Outcome)
      requires key in rows
      modifies this
      ensures Abs() == Updated(old(Abs()), key, ch)
      ensures outcome == if Interrupted(old(rows[key]), ch) then ReceiverRaised else Ok
    {
      var row := rows[key];
      var activationChanged, modeChanged := false, false;
      if ch.active.Some? && row.active != ch.active.value {
        row := row.(active := ch.active.value);
        activationChanged := true;
      }
      if ch.mode.Some? && row.mode != ch.mode.value {
        row := row.(mode := ch.mode.value);
        modeChanged := true;
      }
      if activationChanged || modeChanged {
        rows := rows[key := row];
      } else {
        assert rows == rows[key := row];
      }
      if activationChanged {
        if row.active {
          log := log + [Event(Activated, key, row.mode)];
        } else {
          if ch.receiverRaises {
            return ReceiverRaised;
          }
          log := log + [Event(Deactivated, key, row.mode)];
        }
      }
      if modeChanged {
        log := log + [Event(ModeChanged, key, row.mode)];
      }
      return Ok;
    }

    method EnrollUser(key: Key, mode: Option<string>)
      modifies this
      ensures Abs() == Step(old(Abs()), Enroll(key, mode))
    {
      GetOrCreateEnrollment(key);
      var _ := UpdateEnrollment(key, Change(mode, Some(true), false));
    }

    method UnenrollUser(key: Key, receiverRaises: bool) returns (outcome: Outcome)
      modifies this
      ensures Abs() == Step(old(Abs()), Unenroll(key, receiverRaises))
      ensures outcome == if key !in old(rows) then NotFound
                         else if old(rows)[key].active && receiverRaises then ReceiverRaised else Ok
    {
      if key !in rows {
        return NotFound;
      }
      outcome := UpdateEnrollment(key, Change(None, Some(false), receiverRaises));
    }

    /** `query` is the database's answer to the grouped count, in whatever order. */
    method EnrollmentCounts(c: CourseId, query: seq<(string, nat)>) returns (counts: map<string, nat>)
      requires IsGroupedCount(rows, c, query)
      ensures "total" in counts && counts["total"] == |ActiveIn(rows, c)|
      ensures forall m :: m != "total" ==> (m in counts <==> InMode(rows, c, m) != {})
      ensures forall m :: m != "total" && m in counts ==> counts[m] == |InMode(rows, c, m)|
    {
      var total := 0;
      counts := map[];
      for i := 0 to |query|
        invariant total == Sum(query[..i]) && counts == AsMap(query[..i])
      {
        counts := counts[query[i].0 := query[i].1];
        total := total + query[i].1;
        assert query[..i + 1][..i] == query[..i];
      }
      assert query[..|query|] == query;
      GroupsAddUp(rows, c, query);
      GroupsByMode(rows, c, query);
      counts := counts["total" := total];
    }
  }

  /** One item per mode that has active rows, with their number. */
  ghost predicate IsGroupedCount(rows: map<Key, Row>, c: CourseId, query: seq<(string, nat)>) {
    && (forall i, j :: 0 <= i < j < |query| ==> query[i].0 != query[j].0)
    && (forall i :: 0 <= i < |query| ==> query[i].1 == |InMode(rows, c, query[i].0)| > 0)
    && (forall m :: InMode(rows, c, m) != {} ==> exists i :: 0 <= i < |query| && query[i].0 == m)
  }

  function Sum(query: seq<(string, nat)>): nat {
    if query == [] then 0 else Sum(query[..|query| - 1]) + query[|query| - 1].1
  }

  /** The pairs as a dictionary, filled in their order. */
  function AsMap(query: seq<(string, nat)>): map<string, nat> {
    if query == [] then map[] else AsMap(query[..|query| - 1])[query[|query| - 1].0 := query[|query| - 1].1]
  }

  lemma {:induction false} AsMapHolds(query: seq<(string, nat)>)
    requires forall i, j :: 0 <= i < j < |query| ==> query[i].0 != query[j].0
    ensures forall i :: 0 <= i < |query| ==> query[i].0 in AsMap(query) && AsMap(query)[query[i].0] == query[i].1
    ensures forall m :: m in AsMap(query) ==> exists i :: 0 <= i < |query| && query[i].0 == m
  {
    if query != [] {
      var init := query[..|query| - 1];
      AsMapHolds(init);
      forall m | m in AsMap(query)
        ensures exists i :: 0 <= i < |query| && query[i].0 == m
      {
        if m == query[|query| - 1].0 {
          assert query[|query| - 1].0 == m;
        } else {
          assert m in AsMap(init);
          var i :| 0 <= i < |init| && init[i].0 == m;
          assert query[i].0 == m;
        }
      }
    }
  }

  lemma GroupsByMode(rows: map<Key, Row>, c: CourseId, query: seq<(string, nat)>)
    requires IsGroupedCount(rows, c, query)
    ensures forall m :: m in AsMap(query) <==> InMode(rows, c, m) != {}
    ensures forall m :: m in AsMap(query) ==> AsMap(query)[m] == |InMode(rows, c, m)|
  {
    AsMapHolds(query);
    forall m | m in AsMap(query)
      ensures InMode(rows, c, m) != {} && AsMap(query)[m] == |InMode(rows, c, m)|
    {
      var i :| 0 <= i < |query| && query[i].0 == m;
    }
  }

  /** The active rows whose mode is among the first items. */
  ghost function Covered(rows: map<Key, Row>, c: CourseId, query: seq<(string, nat)>): set<Key> {
    set k | k in rows && InCourse(rows, c, k) && exists i :: 0 <= i < |query| && query[i].0 == rows[k].mode
  }

  lemma {:induction false} CoveredCount(rows: map<Key, Row>, c: CourseId, query: seq<(string, nat)>)
    requires forall i, j :: 0 <= i < j < |query| ==> query[i].0 != query[j].0
    requires forall i :: 0 <= i < |query| ==> query[i].1 == |InMode(rows, c, query[i].0)|
    ensures Sum(query) == |Covered(rows, c, query)|
  {
    if query == [] {
      assert Covered(rows, c, query) == {};
    } else {
      var init, last := query[..|query| - 1], query[|query| - 1];
      CoveredCount(rows, c, init);
      CoveredSplit(rows, c, query);
    }
  }

  lemma CoveredSplit(rows: map<Key, Row>, c: CourseId, query: seq<(string, nat)>)
    requires query != [] && forall i, j :: 0 <= i < j < |query| ==> query[i].0 != query[j].0
    ensures var init, mode := query[..|query| - 1], query[|query| - 1].0;
            Covered(rows, c, query) == Covered(rows, c, init) + InMode(rows, c, mode) &&
            Covered(rows, c, init) !! InMode(rows, c, mode)
  {
    var init, last := query[..|query| - 1], query[|query| - 1];
    forall k | k in Covered(rows, c, init)
      ensures k in Covered(rows, c, query)
    {
      var i :| 0 <= i < |init| && init[i].0 == rows[k].mode;
      assert query[i].0 == rows[k].mode;
    }
    forall k | k in Covered(rows, c, query)
      ensures k in Covered(rows, c, init) + InMode(rows, c, last.0)
    {
      var i :| 0 <= i < |query| && query[i].0 == rows[k].mode;
      assert i < |init| ==> init[i].0 == rows[k].mode;
    }
    assert query[|query| - 1].0 == last.0;
  }

  lemma GroupsAddUp(rows: map<Key, Row>, c: CourseId, query: seq<(string, nat)>)
    requires IsGroupedCount(rows, c, query)
    ensures Sum(query) == |ActiveIn(rows, c)|
  {
    CoveredCount(rows, c, query);
    forall k | k in ActiveIn(rows, c)
      ensures k in Covered(rows, c, query)
    {
      assert k in InMode(rows, c, rows[k].mode);
    }
    assert Covered(rows, c, query) == ActiveIn(rows, c);
  }

  /** The items that survive in the reported dictionary, whose `total` key is written last. */
  function Reported(query: seq<(string, nat)>): seq<(string, nat)> {
    if query == [] then []
    else Reported(query[..|query| - 1]) + (if query[|query| - 1].0 == "total" then [] else [query[|query| - 1]])
  }

  lemma SumAppend(query: seq<(string, nat)>, item: (string, nat))
    ensures Sum(query + [item]) == Sum(query) + item.1
  {
    assert (query + [item])[..|query|] == query;
  }

  lemma {:induction false} ReportedSum(query: seq<(string, nat)>)
    requires forall i, j :: 0 <= i < j < |query| ==> query[i].0 != query[j].0
    requires forall i :: 0 <= i < |query| ==> query[i].1 > 0
    ensures Sum(Reported(query)) <= Sum(query)
    ensures Sum(Reported(query)) == Sum(query) <==> NoTotal(query)
  {
    if query != [] {
      var init, last := query[..|query| - 1], query[|query| - 1];
      ReportedSum(init);
      SumAppend(Reported(init), last);
      assert Reported(init) + [] == Reported(init);
      NoTotalSplit(query);
    }
  }

  predicate NoTotal(query: seq<(string, nat)>) {
    forall i :: 0 <= i < |query| ==> query[i].0 != "total"
  }

  lemma NoTotalSplit(query: seq<(string, nat)>)
    requires query != []
    ensures NoTotal(query) <==> NoTotal(query[..|query| - 1]) && query[|query| - 1].0 != "total"
  {
    var init := query[..|query| - 1];
    assert forall i :: 0 <= i < |init| ==> init[i] == query[i];
  }

  /** The reported per-mode counts add up to the total exactly when no active enrollment has a mode called "total". */
  lemma ModesAddUpExactly(rows: map<Key, Row>, c: CourseId, query: seq<(string, nat)>)
    requires IsGroupedCount(rows, c, query)
    ensures Sum(Reported(query)) == |ActiveIn(rows, c)| <==> InMode(rows, c, "total") == {}
  {
    GroupsAddUp(rows, c, query);
    ReportedSum(query);
    if InMode(rows, c, "total") != {} {
      var i :| 0 <= i < |query| && query[i].0 == "total";
    }
  }

  function Run(ops: seq<Op>): State {
    if ops == [] then State(map[], []) else Step(Run(ops[..|ops| - 1]), ops[|ops| - 1])
  }

  /** The activation events of one enrollment: true for activated, false for deactivated. */
  function Activations(log: seq<Event>, key: Key): seq<bool> {
    if log == [] then []
    else
      var last := log[|log| - 1];
      Activations(log[..|log| - 1], key) +
      (if last.key == key && !last.kind.ModeChanged? then [last.kind.Activated?] else [])
  }

  function Count(s: seq<bool>, b: bool): nat {
    if s == [] then 0 else Count(s[..|s| - 1], b) + (if s[|s| - 1] == b then 1 else 0)
  }

  function LostBy(s: State, op: Op, key: Key): nat {
    if op.key == key && key in s.rows && Interrupted(s.rows[key], ChangeOf(op)) then 1 else 0
  }

  /** How many of a run's changes to this enrollment were cut short by a receiver. */
  function Lost(ops: seq<Op>, key: Key): nat {
    if ops == [] then 0 else Lost(ops[..|ops| - 1], key) + LostBy(Run(ops[..|ops| - 1]), ops[|ops| - 1], key)
  }

  function Active(s: State, key: Key): nat {
    if key in s.rows && s.rows[key].active then 1 else 0
  }

  lemma {:induction false} ActivationsAppend(log: seq<Event>, more: seq<Event>, key: Key)
    ensures Activations(log + more, key) == Activations(log, key) + Activations(more, key)
  {
    if more == [] {
      assert log + more == log;
    } else {
      ActivationsAppend(log, more[..|more| - 1], key);
      assert (log + more)[..|log + more| - 1] == log + more[..|more| - 1];
    }
  }

  lemma {:induction false} CountAppend(s: seq<bool>, t: seq<bool>, b: bool)
    ensures Count(s + t, b) == Count(s, b) + Count(t, b)
  {
    if t == [] {
      assert s + t == s;
    } else {
      CountAppend(s, t[..|t| - 1], b);
      assert (s + t)[..|s + t| - 1] == s + t[..|t| - 1];
    }
  }

  /** The activation events one change emits. */
  lemma EventsActivations(key: Key, row: Row, ch: Change, other: Key)
    ensures Activations(Events(key, row, ch), other) ==
            if other == key && ActivationChanges(row, ch) && !Interrupted(row, ch) then [!row.active] else []
  {
    var a := if ActivationChanges(row, ch) && !Interrupted(row, ch)
             then [Event(if Changed(row, ch).active then Activated else Deactivated, key, Changed(row, ch).mode)]
             else [];
    var m := if ModeChanges(row, ch) && !Interrupted(row, ch)
             then [Event(ModeChanged, key, Changed(row, ch).mode)] else [];
    assert Events(key, row, ch) == a + m;
    ActivationsAppend(a, m, other);
    assert forall e: Event :: [e][..0] == [];
  }

  function NewActivations(s: State, op: Op, key: Key): seq<bool> {
    var row := if key in s.rows then s.rows[key] else Row(DEFAULT_MODE, false);
    if op.key == key && (key in s.rows || Creates(op)) && ActivationChanges(row, ChangeOf(op)) &&
       !Interrupted(row, ChangeOf(op))
    then [!row.active] else []
  }

  lemma StepActivations(s: State, op: Op, key: Key)
    ensures Activations(Step(s, op).log, key) == Activations(s.log, key) + NewActivations(s, op, key)
  {
    var s' := if Creates(op) then Created(s, op.key) else s;
    if op.key in s'.rows {
      var events := Events(op.key, s'.rows[op.key], ChangeOf(op));
      ActivationsAppend(s.log, events, key);
      EventsActivations(op.key, s'.rows[op.key], ChangeOf(op), key);
    }
  }

  lemma StepBalance(s: State, op: Op, key: Key)
    ensures var b := NewActivations(s, op, key);
            Count(b, true) + Active(s, key) == Count(b, false) + Active(Step(s, op), key) + LostBy(s, op, key)
  {
    var b := NewActivations(s, op, key);
    assert b == [] || (|b| == 1 && b[..0] == []);
  }

  /** Per user and course: activations are deactivations, plus the present activity, plus what was lost. */
  lemma {:induction false} ActivationsBalance(ops: seq<Op>, key: Key)
    ensures var a := Activations(Run(ops).log, key);
            Count(a, true) == Count(a, false) + Active(Run(ops), key) + Lost(ops, key)
  {
    if ops != [] {
      var init, op := ops[..|ops| - 1], ops[|ops| - 1];
      var s := Run(init);
      ActivationsBalance(init, key);
      StepActivations(s, op, key);
      var a, b := Activations(s.log, key), NewActivations(s, op, key);
      CountAppend(a, b, true);
      CountAppend(a, b, false);
      StepBalance(s, op, key);
    }
  }

  /** Activation, deactivation, activation, … */
  predicate Alternates(a: seq<bool>) {
    forall i :: 0 <= i < |a| ==> a[i] == (i % 2 == 0)
  }

  lemma {:induction false} AlternatingCount(a: seq<bool>)
    requires Alternates(a)
    ensures Count(a, true) - Count(a, false) == if |a| % 2 == 1 then 1 else 0
  {
    if a != [] {
      AlternatingCount(a[..|a| - 1]);
    }
  }

  /** The log of one enrollment tells its whole activity: it alternates and its last event is the present state. */
  predicate LogTellsActivity(s: State, key: Key) {
    var a := Activations(s.log, key);
    Alternates(a) && |a| % 2 == Active(s, key)
  }

  lemma TellsOneMore(s: State, op: Op, t: State, key: Key)
    requires LogTellsActivity(s, key) && LostBy(s, op, key) == 0
    requires Activations(t.log, key) == Activations(s.log, key) + NewActivations(s, op, key)
    requires Active(t, key) == Active(s, key) + Count(NewActivations(s, op, key), true)
                               - Count(NewActivations(s, op, key), false)
    ensures LogTellsActivity(t, key)
  {
    var b := NewActivations(s, op, key);
    assert b == [] || (|b| == 1 && b[..0] == []);
  }

  lemma {:induction false} NothingLostMeansAlternating(ops: seq<Op>, key: Key)
    requires Lost(ops, key) == 0
    ensures LogTellsActivity(Run(ops), key)
  {
    if ops != [] {
      var s, op := Run(ops[..|ops| - 1]), ops[|ops| - 1];
      NothingLostMeansAlternating(ops[..|ops| - 1], key);
      StepActivations(s, op, key);
      StepBalance(s, op, key);
      TellsOneMore(s, op, Run(ops), key);
    }
  }

  /** Over any run, the log of an enrollment is faithful exactly when no receiver cut one of its changes short. */
  lemma LogFaithfulExactly(ops: seq<Op>, key: Key)
    ensures LogTellsActivity(Run(ops), key) <==> Lost(ops, key) == 0
  {
    if Lost(ops, key) == 0 {
      NothingLostMeansAlternating(ops, key);
    } else if LogTellsActivity(Run(ops), key) {
      ActivationsBalance(ops, key);
      AlternatingCount(Activations(Run(ops).log, key));
    }
  }

  /** Events of one kind in one course. */
  function CourseEvents(log: seq<Event>, c: CourseId, kind: Kind): nat {
    if log == [] then 0
    else CourseEvents(log[..|log| - 1], c, kind) +
         (if log[|log| - 1].key.1 == c && log[|log| - 1].kind == kind then 1 else 0)
  }

  function LostIn(ops: seq<Op>, c: CourseId): nat {
    if ops == [] then 0
    else
      var s, op := Run(ops[..|ops| - 1]), ops[|ops| - 1];
      LostIn(ops[..|ops| - 1], c) +
      (if op.key.1 == c && op.key in s.rows && Interrupted(s.rows[op.key], ChangeOf(op)) then 1 else 0)
  }

  lemma {:induction false} CourseEventsAppend(log: seq<Event>, more: seq<Event>, c: CourseId, kind: Kind)
    ensures CourseEvents(log + more, c, kind) == CourseEvents(log, c, kind) + CourseEvents(more, c, kind)
  {
    if more == [] {
      assert log + more == log;
    } else {
      CourseEventsAppend(log, more[..|more| - 1], c, kind);
      assert (log + more)[..|log + more| - 1] == log + more[..|more| - 1];
    }
  }

  lemma EventsInCourse(key: Key, row: Row, ch: Change, c: CourseId, kind: Kind)
    requires !kind.ModeChanged?
    ensures CourseEvents(Events(key, row, ch), c, kind) ==
            if key.1 == c && ActivationChanges(row, ch) && !Interrupted(row, ch) && kind.Activated? == !row.active
            then 1 else 0
  {
    var a := if ActivationChanges(row, ch) && !Interrupted(row, ch)
             then [Event(if Changed(row, ch).active then Activated else Deactivated, key, Changed(row, ch).mode)]
             else [];
    var m := if ModeChanges(row, ch) && !Interrupted(row, ch)
             then [Event(ModeChanged, key, Changed(row, ch).mode)] else [];
    assert Events(key, row, ch) == a + m;
    CourseEventsAppend(a, m, c, kind);
    assert forall e: Event :: [e][..0] == [];
  }

  lemma SetRow(rows: map<Key, Row>, key: Key, row: Row, c: CourseId)
    ensures var was := key in rows && rows[key].active;
            |ActiveIn(rows[key := row], c)| ==
            |ActiveIn(rows, c)| + (if key.1 != c || was == row.active then 0 else if row.active then 1 else -1)
  {
    var before, after := ActiveIn(rows, c), ActiveIn(rows[key := row], c);
    if key.1 == c && row.active {
      assert after == before + {key};
    } else {
      assert after == before - {key};
    }
  }

  /** Conservation: over every run, a course's events account for everyone enrolled in it, up to what was lost. */
  lemma {:induction false} CourseBalance(ops: seq<Op>, c: CourseId)
    ensures CourseEvents(Run(ops).log, c, Activated) ==
            CourseEvents(Run(ops).log, c, Deactivated) + |ActiveIn(Run(ops).rows, c)| + LostIn(ops, c)
  {
    if ops == [] {
      assert ActiveIn(Run(ops).rows, c) == {};
    } else {
      var op := ops[|ops| - 1];
      var s := Run(ops[..|ops| - 1]);
      CourseBalance(ops[..|ops| - 1], c);
      var s' := if Creates(op) then Created(s, op.key) else s;
      SetRow(s.rows, op.key, Row(DEFAULT_MODE, false), c);
      if op.key in s'.rows {
        var row, ch := s'.rows[op.key], ChangeOf(op);
        UpdateBalance(s', op.key, ch, c);
      }
    }
  }

  lemma UpdateBalance(s: State, key: Key, ch: Change, c: CourseId)
    requires key in s.rows
    ensures var t := Updated(s, key, ch);
            CourseEvents(t.log, c, Activated) - CourseEvents(t.log, c, Deactivated) - |ActiveIn(t.rows, c)| ==
            CourseEvents(s.log, c, Activated) - CourseEvents(s.log, c, Deactivated) - |ActiveIn(s.rows, c)| +
            (if key.1 == c && Interrupted(s.rows[key], ch) then 1 else 0)
  {
    var row := s.rows[key];
    SetRow(s.rows, key, Changed(row, ch), c);
    CourseEventsAppend(s.log, Events(key, row, ch), c, Activated);
    CourseEventsAppend(s.log, Events(key, row, ch), c, Deactivated);
    EventsInCourse(key, row, ch, c, Activated);
    EventsInCourse(key, row, ch, c, Deactivated);
  }

  /** The mode an enrollment's events end on. */
  function LoggedMode(log: seq<Event>, key: Key): string {
    if log == [] then DEFAULT_MODE
    else if log[|log| - 1].key == key && log[|log| - 1].kind.ModeChanged? then log[|log| - 1].mode
    else LoggedMode(log[..|log| - 1], key)
  }

  lemma EventsMode(log: seq<Event>, key: Key, row: Row, ch: Change, other: Key)
    ensures LoggedMode(log + Events(key, row, ch), other) ==
            if other == key && ModeChanges(row, ch) && !Interrupted(row, ch) then Changed(row, ch).mode
            else LoggedMode(log, other)
  {
    var events := Events(key, row, ch);
    if |events| == 2 {
      assert (log + events)[..|log| + 1] == log + events[..1];
      assert (log + events[..1])[..|log|] == log;
    } else if |events| == 1 {
      assert (log + events)[..|log|] == log;
    } else {
      assert log + events == log;
    }
  }

  function BeforeChange(s: State, op: Op): State {
    if Creates(op) then Created(s, op.key) else s
  }

  /** Whether the operation changes this enrollment's mode. */
  predicate SetsMode(s: State, op: Op, key: Key) {
    op.key == key && key in BeforeChange(s, op).rows && ModeChanges(BeforeChange(s, op).rows[key], ChangeOf(op))
  }

  /** The mode this enrollment was last given without an event, if it was given one since the last mode event. */
  function Unlogged(ops: seq<Op>, key: Key): Option<string> {
    if ops == [] then None
    else
      var s, op := Run(ops[..|ops| - 1]), ops[|ops| - 1];
      if !SetsMode(s, op, key) then Unlogged(ops[..|ops| - 1], key)
      else if Interrupted(BeforeChange(s, op).rows[key], ChangeOf(op)) then ChangeOf(op).mode
      else None
  }

  function ModeOf(s: State, key: Key): string {
    if key in s.rows then s.rows[key].mode else DEFAULT_MODE
  }

  lemma ModeOneMore(s: State, op: Op, key: Key)
    ensures ModeOf(Step(s, op), key) == if SetsMode(s, op, key) then ChangeOf(op).mode.value else ModeOf(s, key)
    ensures LoggedMode(Step(s, op).log, key) ==
            if SetsMode(s, op, key) && !Interrupted(BeforeChange(s, op).rows[key], ChangeOf(op))
            then ChangeOf(op).mode.value else LoggedMode(s.log, key)
  {
    var s' := BeforeChange(s, op);
    if op.key in s'.rows {
      EventsMode(s.log, op.key, s'.rows[op.key], ChangeOf(op), key);
    }
  }

  /**
    The present mode is the last logged one ("honor" at first) exactly when no change of mode went unlogged
    since then, or the last that did restored it; otherwise it is that change's mode.
   */
  lemma {:induction false} ModeIsLastLoggedExactly(ops: seq<Op>, key: Key)
    ensures var present, logged, unlogged := ModeOf(Run(ops), key), LoggedMode(Run(ops).log, key), Unlogged(ops, key);
            && (present == logged <==> unlogged == None || unlogged == Some(logged))
            && (unlogged.Some? ==> present == unlogged.value)
  {
    if ops != [] {
      ModeIsLastLoggedExactly(ops[..|ops| - 1], key);
      ModeOneMore(Run(ops[..|ops| - 1]), ops[|ops| - 1], key);
    }
  }

  lemma ModeAppend(ops: seq<Op>, op: Op, key: Key)
    ensures Run(ops + [op]) == Step(Run(ops), op)
    ensures Unlogged(ops + [op], key) ==
            if !SetsMode(Run(ops), op, key) then Unlogged(ops, key)
            else if Interrupted(BeforeChange(Run(ops), op).rows[key], ChangeOf(op)) then ChangeOf(op).mode
            else None
  {
    assert (ops + [op])[..|ops|] == ops;
  }

  lemma EnrolledAtFirst(s: State, op: Op)
    requires s == State(map[], []) && op == Enroll(op.key, None)
    ensures Step(s, op).rows == map[op.key := Row(DEFAULT_MODE, true)] && !SetsMode(s, op, op.key)
    ensures LoggedMode(Step(s, op).log, op.key) == DEFAULT_MODE
  {
    FirstSetsNoMode(s, op);
    ModeOneMore(s, op, op.key);
    EnrollLeaves(s, op.key, None);
  }

  lemma FirstSetsNoMode(s: State, op: Op)
    requires s == State(map[], []) && op == Enroll(op.key, None)
    ensures !SetsMode(s, op, op.key)
  {
  }

  // ---------------------------------------------------------------- what each operation leaves

  /** Enrolling, in any state: an active row in the mode asked for, else in the mode it had, else "honor". */
  lemma EnrollLeaves(s: State, key: Key, mode: Option<string>)
    ensures var kept := if key in s.rows then s.rows[key].mode else "honor";
            Step(s, Enroll(key, mode)).rows == s.rows[key := Row(if mode.Some? then mode.value else kept, true)]
  {
  }

  /** Unenrolling: an existing row is inactive and keeps its mode, whatever a receiver does. */
  lemma UnenrollLeaves(s: State, key: Key, raises: bool)
    ensures Step(s, Unenroll(key, raises)).rows ==
            if key in s.rows then s.rows[key := Row(s.rows[key].mode, false)] else s.rows
  {
  }

  /** An update of an existing row leaves the values asked for and keeps the others. */
  lemma UpdateLeaves(s: State, key: Key, mode: Option<string>, active: Option<bool>, raises: bool)
    requires key in s.rows
    ensures var row := s.rows[key];
            Step(s, Update(key, Change(mode, active, raises))).rows ==
            s.rows[key := Row(if mode.Some? then mode.value else row.mode,
                              if active.Some? then active.value else row.active)]
  {
  }

  /** Looking an enrollment up leaves a new row inactive in mode "honor", and an existing one alone. */
  lemma GetOrCreateLeaves(s: State, key: Key)
    ensures Step(s, GetOrCreate(key)).rows == if key in s.rows then s.rows else s.rows[key := Row("honor", false)]
  {
    if key in s.rows {
      assert s.rows[key := s.rows[key]] == s.rows;
    }
  }

  /** Whether some operation of the run created the enrollment. */
  predicate EverCreated(ops: seq<Op>, key: Key) {
    exists i :: 0 <= i < |ops| && ops[i].key == key && (ops[i].Enroll? || ops[i].GetOrCreate?)
  }

  lemma EverCreatedLast(ops: seq<Op>, key: Key)
    requires ops != []
    ensures var last := ops[|ops| - 1];
            EverCreated(ops, key) <==>
            EverCreated(ops[..|ops| - 1], key) || (last.key == key && (last.Enroll? || last.GetOrCreate?))
  {
    var init, last := ops[..|ops| - 1], ops[|ops| - 1];
    if EverCreated(init, key) {
      var i :| 0 <= i < |init| && init[i].key == key && (init[i].Enroll? || init[i].GetOrCreate?);
      assert ops[i] == init[i];
    }
    if EverCreated(ops, key) && !(last.key == key && (last.Enroll? || last.GetOrCreate?)) {
      var i :| 0 <= i < |ops| && ops[i].key == key && (ops[i].Enroll? || ops[i].GetOrCreate?);
      assert init[i] == ops[i];
    }
  }

  /** The mode last asked for while the enrollment was there; "honor" before any. */
  function LastMode(ops: seq<Op>, key: Key): string {
    if ops == [] then "honor"
    else
      var init, last := ops[..|ops| - 1], ops[|ops| - 1];
      if last.key == key && last.Enroll? && last.mode.Some? then last.mode.value
      else if last.key == key && last.Update? && last.change.mode.Some? && EverCreated(init, key)
      then last.change.mode.value
      else LastMode(init, key)
  }

  /** Whether activity or inactivity was last asked for while the enrollment was there. */
  function LastActive(ops: seq<Op>, key: Key): bool {
    if ops == [] then false
    else
      var init, last := ops[..|ops| - 1], ops[|ops| - 1];
      if last.key == key && last.Enroll? then true
      else if last.key == key && last.Unenroll? then false
      else if last.key == key && last.Update? && last.change.active.Some? && EverCreated(init, key)
      then last.change.active.value
      else LastActive(init, key)
  }

  /**
    Over every run, an enrollment is there exactly if an operation created it, and its mode and activity are
    those last asked for; operations on other enrollments and failing receivers make no difference.
   */
  lemma {:induction false} RowIsLastAsked(ops: seq<Op>, key: Key)
    ensures key in Run(ops).rows <==> EverCreated(ops, key)
    ensures EverCreated(ops, key) ==> Run(ops).rows[key] == Row(LastMode(ops, key), LastActive(ops, key))
    ensures !EverCreated(ops, key) ==> LastMode(ops, key) == "honor" && !LastActive(ops, key)
  {
    if ops != [] {
      var init, last := ops[..|ops| - 1], ops[|ops| - 1];
      RowIsLastAsked(init, key);
      EverCreatedLast(ops, key);
      match last {
        case GetOrCreate(k) => GetOrCreateLeaves(Run(init), k);
        case Enroll(k, mode) => EnrollLeaves(Run(init), k, mode);
        case Unenroll(k, raises) => UnenrollLeaves(Run(init), k, raises);
        case Update(k, change) =>
          if k in Run(init).rows {
            UpdateLeaves(Run(init), k, change.mode, change.active, change.receiverRaises);
          }
      }
    }
  }

  /** Whether a receiver of the operation's signal would raise. */
  predicate WouldRaise(op: Op) {
    (op.Unenroll? && op.receiverRaises) || (op.Update? && op.change.receiverRaises)
  }

  /**
    The events of a step, told from the rows before and after: one if activity changed and then one if the
    mode did, each with the mode after the change; none if a receiver raises on a deactivation.
   */
  lemma StepEmits(s: State, op: Op)
    ensures var t := Step(s, op);
            op.key in t.rows ==>
              var was := if op.key in s.rows then s.rows[op.key] else Row("honor", false);
              var row := t.rows[op.key];
              t.log == s.log +
                if was.active && !row.active && WouldRaise(op) then []
                else (if was.active != row.active
                      then [Event(if row.active then Activated else Deactivated, op.key, row.mode)] else []) +
                     (if was.mode != row.mode then [Event(ModeChanged, op.key, row.mode)] else [])
    ensures op.key !in Step(s, op).rows ==> Step(s, op).log == s.log
  {
  }

  /** A change of mode that comes with a deactivation is lost from the log with it. */
  lemma ReceiverLosesMode(key: Key, mode: string)
    requires mode != DEFAULT_MODE
    ensures var ops := [Enroll(key, None)] + [Update(key, Change(Some(mode), Some(false), true))];
            && Unlogged(ops, key) == Some(mode) && ModeOf(Run(ops), key) == mode
            && LoggedMode(Run(ops).log, key) == DEFAULT_MODE
  {
    var enroll, update := Enroll(key, None), Update(key, Change(Some(mode), Some(false), true));
    assert [] + [enroll] == [enroll];
    ModeAppend([], enroll, key);
    EnrolledAtFirst(Run([]), enroll);
    ModeAppend([enroll], update, key);
    ModeOneMore(Run([enroll]), update, key);
  }

  /** A receiver's exception does lose an event: the user has left, but the log ends on an activation. */
  lemma ReceiverLosesEvent(key: Key)
    ensures var ops := [Enroll(key, None)] + [Unenroll(key, true)];
            Lost(ops, key) == 1 && Active(Run(ops), key) == 0 && !LogTellsActivity(Run(ops), key)
  {
    var enroll := [Enroll(key, None)];
    var ops := enroll + [Unenroll(key, true)];
    assert enroll[..0] == [] && ops[..1] == enroll;
    assert Run([]) == State(map[], []);
    assert Run(enroll) == Step(Run([]), enroll[0]);
    assert Lost(enroll, key) == Lost([], key) + LostBy(Run([]), enroll[0], key) == 0;
    assert Lost(ops, key) == LostBy(Run(enroll), ops[1], key);
    LogFaithfulExactly(ops, key);
  }
}
