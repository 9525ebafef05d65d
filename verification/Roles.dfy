/** Course access roles and the per-user cache of them (common/djangoapps/student/roles.py). */
module Roles {
  import opened Wrappers

  type UserId = nat

  datatype CourseKey = CourseKey(org: string, run: string)

  /** A role by name, constrained to an organisation and a course, or to neither. */
  datatype Role = Role(name: string, org: string, course: Option<CourseKey>)

  datatype Row = Row(user: UserId, role: Role)

  /**
    The role table, the `_roles` attribute of every user object that has one, and the users who are
    authenticated and active. Each user has one live object.
   */
  datatype State = State(rows: set<Row>, cached: map<UserId, set<Role>>, active: set<UserId>)

  function CourseRole(name: string, key: CourseKey): Role {
    Role(name, key.org, Some(key))
  }

  function Held(rows: set<Row>, u: UserId): set<Role> {
    set r | r in rows && r.user == u :: r.role
  }

  /** Every live cache holds exactly its user's rows. */
  predicate Coherent(s: State) {
    forall u :: u in s.cached ==> s.cached[u] == Held(s.rows, u)
  }

  /** The answer without a cache. */
  predicate HasRole(s: State, u: UserId, role: Role) {
    u in s.active && Row(u, role) in s.rows
  }

  /** The state once a check has filled the user's cache. */
  function Warmed(s: State, u: UserId): State {
    if u in s.active && u !in s.cached then s.(cached := s.cached[u := Held(s.rows, u)]) else s
  }

  /** The answer a check gives. */
  predicate Answers(s: State, u: UserId, role: Role) {
    u in s.active && role in Warmed(s, u).cached[u]
  }

  function Dropped(s: State, us: set<UserId>): State {
    s.(cached := s.cached - us)
  }

  /** A row saved for a user whose check just said no. */
  function GrantedTo(s: State, u: UserId, role: Role): State {
    if u in s.active && !Answers(s, u, role) then Dropped(s.(rows := s.rows + {Row(u, role)}), {u})
    else Warmed(s, u)
  }

  /** Whether the database's uniqueness constraint refuses the row `add_users` wants to save. */
  predicate Collides(s: State, u: UserId, role: Role) {
    u in s.active && !Answers(s, u, role) && Row(u, role) in s.rows
  }

  datatype Outcome = Done | IntegrityError | NotActive

  function AddedAll(s: State, us: seq<UserId>, role: Role): (State, Outcome)
    decreases |us|
  {
    if us == [] then (s, Done)
    else if Collides(s, us[0], role) then (Warmed(s, us[0]), IntegrityError)
    else AddedAll(GrantedTo(s, us[0], role), us[1..], role)
  }

  function RemovedAll(s: State, us: seq<UserId>, role: Role): State {
    Dropped(s.(rows := set r | r in s.rows && !(r.user in us && r.role == role)), set u | u in us)
  }

  /** `add_course` saves without asking first, and clears the cache only after the last row. */
  function CoursesAdded(s: State, u: UserId, name: string, keys: seq<CourseKey>): (State, Outcome)
    decreases |keys|
  {
    if keys == [] then (Dropped(s, {u}), Done)
    else
      var row := Row(u, CourseRole(name, keys[0]));
      if row in s.rows then (s, IntegrityError)
      else CoursesAdded(s.(rows := s.rows + {row}), u, name, keys[1..])
  }

  predicate InCourses(role: Role, name: string, keys: seq<CourseKey>) {
    role.name == name && role.course.Some? && role.course.value in keys
  }

  function CoursesRemoved(s: State, u: UserId, name: string, keys: seq<CourseKey>): State {
    Dropped(s.(rows := set r | r in s.rows && !(r.user == u && InCourses(r.role, name, keys))), {u})
  }

  datatype Op =
    | HasUser(user: UserId, role: Role)
    | AddUsers(users: seq<UserId>, role: Role)
    | RemoveUsers(users: seq<UserId>, role: Role)
    | HasCourse(user: UserId, name: string, key: CourseKey)
    | AddCourses(user: UserId, name: string, keys: seq<CourseKey>)
    | RemoveCourses(user: UserId, name: string, keys: seq<CourseKey>)
    | SetActive(user: UserId, on: bool)

  function Step(s: State, op: Op): (State, Outcome) {
    match op
    case HasUser(u, _) => (Warmed(s, u), Done)
    case AddUsers(us, role) => AddedAll(s, us, role)
    case RemoveUsers(us, role) => (RemovedAll(s, us, role), Done)
    case HasCourse(u, _, _) => (Warmed(s, u), Done)
    case AddCourses(u, name, keys) => if u in s.active then CoursesAdded(s, u, name, keys) else (s, NotActive)
    case RemoveCourses(u, name, keys) => (CoursesRemoved(s, u, name, keys), Done)
    case SetActive(u, on) => (s.(active := if on then s.active + {u} else s.active - {u}), Done)
  }

  class RoleStore {
    var rows: set<Row>
    var cached: map<UserId, set<Role>>
    var active: set<UserId>

    function Abs(): State
      reads this
    {
      State(rows, cached, active)
    }

    constructor (active: set<UserId>)
      ensures Abs() == State({}, map[], active)
    {
      rows, cached := {}, map[];
      this.active := active;
    }

    method HasUserWithRole(u: UserId, role: Role) returns (has: bool)
      modifies this`cached
      ensures Abs() == Warmed(old(Abs()), u)
      ensures has == Answers(old(Abs()), u, role)
    {
      if u !in active {
        return false;
      }
      if u !in cached {
        cached := cached[u := Held(rows, u)];
      }
      has := exists r :: r in cached[u] && r.name == role.name && r.course == role.course && r.org == role.org;
      assert role in cached[u] ==> has;
    }

    /** `UserBasedRole(user, name).has_course(key)` */
    method HasCourse(u: UserId, name: string, key: CourseKey) returns (has: bool)
      modifies this`cached
      ensures Abs() == Warmed(old(Abs()), u)
      ensures has == Answers(old(Abs()), u, CourseRole(name, key))
    {
      has := HasUserWithRole(u, CourseRole(name, key));
    }

    /** `entry.save()`, under the table's uniqueness constraint */
    method SaveRow(row: Row) returns (ok: bool)
      modifies this`rows
      ensures ok == (row !in old(rows)) && rows == old(rows) + {row}
    {
      ok := row !in rows;
      rows := rows + {row};
    }

    method AddUsersToRole(us: seq<UserId>, role: Role) returns (outcome: Outcome)
      modifies this
      ensures (Abs(), outcome) == AddedAll(old(Abs()), us, role)
    {
      for i := 0 to |us|
        invariant AddedAll(old(Abs()), us, role) == AddedAll(Abs(), us[i..], role)
      {
        assert us[i..][0] == us[i] && us[i..][1..] == us[i + 1..];
        var u := us[i];
        ghost var s := Abs();
        if u in active {
          var has := HasUserWithRole(u, role);
          if !has {
            var ok := SaveRow(Row(u, role));
            if !ok {
              assert rows == s.rows;
              return IntegrityError;
            }
            cached := cached - {u};
            assert Abs() == GrantedTo(s, u, role);
          }
        }
      }
      return Done;
    }

    method RemoveUsersFromRole(us: seq<UserId>, role: Role)
      modifies this
      ensures Abs() == RemovedAll(old(Abs()), us, role)
    {
      rows := set r | r in rows && !(r.user in us && r.role == role);
      for i := 0 to |us|
        invariant rows == RemovedAll(old(Abs()), us, role).rows && active == old(active)
        invariant cached == old(cached) - set u | u in us[..i]
      {
        if us[i] in cached {
          cached := cached - {us[i]};
        }
        assert us[..i + 1] == us[..i] + [us[i]];
      }
      assert us[..|us|] == us;
    }

    method AddCoursesToUser(u: UserId, name: string, keys: seq<CourseKey>) returns (outcome: Outcome)
      modifies this
      ensures (Abs(), outcome) == Step(old(Abs()), AddCourses(u, name, keys))
    {
      if u !in active {
        return NotActive;
      }
      for i := 0 to |keys|
        invariant CoursesAdded(old(Abs()), u, name, keys) == CoursesAdded(Abs(), u, name, keys[i..])
      {
        assert keys[i..][0] == keys[i] && keys[i..][1..] == keys[i + 1..];
        ghost var s := Abs();
        var ok := SaveRow(Row(u, CourseRole(name, keys[i])));
        if !ok {
          assert rows == s.rows;
          return IntegrityError;
        }
      }
      cached := cached - {u};
      return Done;
    }

    method RemoveCoursesFromUser(u: UserId, name: string, keys: seq<CourseKey>)
      modifies this
      ensures Abs() == CoursesRemoved(old(Abs()), u, name, keys)
    {
      rows := set r | r in rows && !(r.user == u && InCourses(r.role, name, keys));
      if u in cached {
        cached := cached - {u};
      }
    }
  }

  /** With coherent caches a check's answer is the uncached one, and the check keeps them coherent. */
  lemma CheckIsExact(s: State, u: UserId, role: Role)
    requires Coherent(s)
    ensures Answers(s, u, role) <==> HasRole(s, u, role)
    ensures Coherent(Warmed(s, u)) && Warmed(s, u).rows == s.rows
  {
    var w := Warmed(s, u);
    if u in s.active {
      assert w.cached[u] == Held(s.rows, u);
      if Row(u, role) in s.rows {
        assert Row(u, role).role in Held(s.rows, u);
      }
    }
  }

  lemma DropKeepsCoherent(s: State, rows: set<Row>, us: set<UserId>)
    requires Coherent(s)
    requires forall r :: r in (rows - s.rows) + (s.rows - rows) ==> r.user in us
    ensures Coherent(Dropped(s.(rows := rows), us))
  {
    forall u | u in s.cached && u !in us
      ensures Held(rows, u) == Held(s.rows, u)
    {
      forall role: Role
        ensures role in Held(rows, u) <==> role in Held(s.rows, u)
      {
        assert Row(u, role) in rows <==> Row(u, role) in s.rows;
        assert Row(u, role) in rows ==> Row(u, role).role in Held(rows, u);
        assert Row(u, role) in s.rows ==> Row(u, role).role in Held(s.rows, u);
      }
    }
  }

  /** `add_users` gives the role to exactly the active users named, however often, and never collides. */
  lemma {:induction false} AddUsersIsExact(s: State, us: seq<UserId>, role: Role)
    requires Coherent(s)
    ensures var (t, outcome) := AddedAll(s, us, role);
            && outcome == Done && Coherent(t) && t.active == s.active
            && t.rows == s.rows + set u | u in us && u in s.active :: Row(u, role)
    decreases |us|
  {
    if us != [] {
      var u := us[0];
      CheckIsExact(s, u, role);
      DropKeepsCoherent(s, s.rows + {Row(u, role)}, {u});
      var t := GrantedTo(s, u, role);
      assert Coherent(t);
      AddUsersIsExact(t, us[1..], role);
      assert us == [u] + us[1..];
    }
  }

  /** Course number `i` stops `add_course`: its row is there already, or the same course came before it. */
  predicate Blocked(rows: set<Row>, u: UserId, name: string, keys: seq<CourseKey>, i: nat)
    requires i < |keys|
  {
    Row(u, CourseRole(name, keys[i])) in rows || keys[i] in keys[..i]
  }

  /**
    `add_course` leaves a stale cache behind: the user has one, the first course is new, and a later one
    is already held or repeats an earlier one, so the call is stopped with a row in and the cache kept.
   */
  ghost predicate LeavesStale(s: State, u: UserId, name: string, keys: seq<CourseKey>) {
    && u in s.active && u in s.cached && keys != [] && !Blocked(s.rows, u, name, keys, 0)
    && exists i :: 0 < i < |keys| && Blocked(s.rows, u, name, keys, i)
  }

  lemma {:induction false} CoursesAddedIsExact(s: State, u: UserId, name: string, keys: seq<CourseKey>)
    ensures var (t, outcome) := CoursesAdded(s, u, name, keys);
            && t.active == s.active && s.rows <= t.rows && (forall r :: r in t.rows - s.rows ==> r.user == u)
            && (outcome == Done ==> t.cached == s.cached - {u})
            && (outcome != Done ==> outcome == IntegrityError && t.cached == s.cached)
            && (outcome == Done <==> forall i :: 0 <= i < |keys| ==> !Blocked(s.rows, u, name, keys, i))
            && (keys != [] && !Blocked(s.rows, u, name, keys, 0) ==> Row(u, CourseRole(name, keys[0])) in t.rows)
            && (keys != [] && Blocked(s.rows, u, name, keys, 0) ==> t == s)
    decreases |keys|
  {
    if keys != [] {
      var row := Row(u, CourseRole(name, keys[0]));
      if row !in s.rows {
        CoursesAddedIsExact(s.(rows := s.rows + {row}), u, name, keys[1..]);
        forall i | 0 < i < |keys|
          ensures Blocked(s.rows, u, name, keys, i) <==> Blocked(s.rows + {row}, u, name, keys[1..], i - 1)
        {
          assert keys[i] == keys[1..][i - 1];
          assert keys[..i] == [keys[0]] + keys[1..][..i - 1];
        }
        BlockedShift(s.rows, u, name, keys, row);
      } else {
        assert Blocked(s.rows, u, name, keys, 0);
      }
    }
  }

  lemma BlockedShift(rows: set<Row>, u: UserId, name: string, keys: seq<CourseKey>, row: Row)
    requires keys != [] && row == Row(u, CourseRole(name, keys[0])) && row !in rows
    requires forall i :: 0 < i < |keys| ==>
               (Blocked(rows, u, name, keys, i) <==> Blocked(rows + {row}, u, name, keys[1..], i - 1))
    ensures (forall i :: 0 <= i < |keys| ==> !Blocked(rows, u, name, keys, i)) <==>
            (forall i :: 0 <= i < |keys[1..]| ==> !Blocked(rows + {row}, u, name, keys[1..], i))
  {
    if forall i :: 0 <= i < |keys| ==> !Blocked(rows, u, name, keys, i) {
      forall i | 0 <= i < |keys[1..]|
        ensures !Blocked(rows + {row}, u, name, keys[1..], i)
      {
        assert !Blocked(rows, u, name, keys, i + 1);
      }
    }
  }

  /** The exact condition under which `add_course` keeps the caches right. */
  lemma AddCoursesCoherentExactly(s: State, u: UserId, name: string, keys: seq<CourseKey>)
    requires Coherent(s)
    ensures Coherent(Step(s, AddCourses(u, name, keys)).0) <==> !LeavesStale(s, u, name, keys)
  {
    if u in s.active {
      var (t, outcome) := CoursesAdded(s, u, name, keys);
      CoursesAddedIsExact(s, u, name, keys);
      DropKeepsCoherent(s, t.rows, {u});
      if outcome == Done || keys == [] || Blocked(s.rows, u, name, keys, 0) {
        assert outcome == Done ==> t == Dropped(s.(rows := t.rows), {u});
      } else {
        var role := CourseRole(name, keys[0]);
        assert Row(u, role) in t.rows && Row(u, role) !in s.rows;
        if u in s.cached {
          assert Row(u, role).role in Held(t.rows, u);
          assert role !in Held(s.rows, u);
        } else {
          assert t == Dropped(s.(rows := t.rows), {u});
        }
      }
    }
  }

  /** Whether the operation, met in this state, would leave a stale cache. */
  ghost predicate Stale(s: State, op: Op) {
    op.AddCourses? && LeavesStale(s, op.user, op.name, op.keys)
  }

  lemma StepCoherentExactly(s: State, op: Op)
    requires Coherent(s)
    ensures Coherent(Step(s, op).0) <==> !Stale(s, op)
  {
    match op {
      case HasUser(u, role) => CheckIsExact(s, u, role);
      case AddUsers(us, role) => AddUsersIsExact(s, us, role);
      case RemoveUsers(us, role) =>
        DropKeepsCoherent(s, set r | r in s.rows && !(r.user in us && r.role == role), set u | u in us);
      case HasCourse(u, name, key) => CheckIsExact(s, u, CourseRole(name, key));
      case AddCourses(u, name, keys) => AddCoursesCoherentExactly(s, u, name, keys);
      case RemoveCourses(u, name, keys) =>
        DropKeepsCoherent(s, set r | r in s.rows && !(r.user == u && InCourses(r.role, name, keys)), {u});
      case SetActive(_, _) =>
    }
  }

  // ---------------------------------------------------------------- which roles an operation changes

  /** Removing users takes the role, by name, organisation and course, from those users, and nothing else. */
  lemma RemoveUsersExactly(s: State, us: seq<UserId>, role: Role, v: UserId, q: Role)
    ensures HasRole(Step(s, RemoveUsers(us, role)).0, v, q) <==> HasRole(s, v, q) && !(v in us && q == role)
  {
    assert Row(v, q) in Step(s, RemoveUsers(us, role)).0.rows <==> Row(v, q) in s.rows && !(v in us && q == role);
  }

  /** Adding users gives that role to those users, if active, and nothing else. */
  lemma AddUsersExactly(s: State, us: seq<UserId>, role: Role, v: UserId, q: Role)
    requires Coherent(s)
    ensures HasRole(Step(s, AddUsers(us, role)).0, v, q) <==>
            HasRole(s, v, q) || (v in us && v in s.active && q == role)
  {
    AddUsersIsExact(s, us, role);
    var added := set u | u in us && u in s.active :: Row(u, role);
    assert Row(v, q) in added <==> v in us && v in s.active && q == role;
  }

  /** Removing courses takes from the user the roles of that name in those courses, and nothing else. */
  lemma RemoveCoursesExactly(s: State, u: UserId, name: string, keys: seq<CourseKey>, v: UserId, q: Role)
    ensures HasRole(Step(s, RemoveCourses(u, name, keys)).0, v, q) <==>
            HasRole(s, v, q) && !(v == u && q.name == name && q.course.Some? && q.course.value in keys)
  {
  }

  /** The role of that name in one of the first `n` courses, under the course's own organisation. */
  ghost predicate IsForOneOf(q: Role, name: string, keys: seq<CourseKey>, n: nat)
    requires n <= |keys|
  {
    exists i :: 0 <= i < n && q == Role(name, keys[i].org, Some(keys[i]))
  }

  /** The number of courses before the first that the user holds, or that came before, all of them if there is none. */
  function FirstBlocked(rows: set<Row>, u: UserId, name: string, keys: seq<CourseKey>): (n: nat)
    ensures n <= |keys| && (n < |keys| ==> Blocked(rows, u, name, keys, n))
    ensures forall i :: 0 <= i < n ==> !Blocked(rows, u, name, keys, i)
  {
    FirstBlockedFrom(rows, u, name, keys, 0)
  }

  function FirstBlockedFrom(rows: set<Row>, u: UserId, name: string, keys: seq<CourseKey>, k: nat): (n: nat)
    requires k <= |keys| && forall i :: 0 <= i < k ==> !Blocked(rows, u, name, keys, i)
    ensures n <= |keys| && (n < |keys| ==> Blocked(rows, u, name, keys, n))
    ensures forall i :: 0 <= i < n ==> !Blocked(rows, u, name, keys, i)
    decreases |keys| - k
  {
    if k == |keys| || Blocked(rows, u, name, keys, k) then k else FirstBlockedFrom(rows, u, name, keys, k + 1)
  }

  lemma {:induction false} CoursesAddedRows(s: State, u: UserId, name: string, keys: seq<CourseKey>, n: nat, q: Role)
    requires n <= |keys| && (n < |keys| ==> Blocked(s.rows, u, name, keys, n))
    requires forall i :: 0 <= i < n ==> !Blocked(s.rows, u, name, keys, i)
    ensures var (t, outcome) := CoursesAdded(s, u, name, keys);
            && (outcome == Done <==> n == |keys|)
            && (Row(u, q) in t.rows <==> Row(u, q) in s.rows || IsForOneOf(q, name, keys, n))
            && forall v :: v != u ==> (Row(v, q) in t.rows <==> Row(v, q) in s.rows)
    decreases |keys|
  {
    if keys != [] {
      var row := Row(u, CourseRole(name, keys[0]));
      assert Blocked(s.rows, u, name, keys, 0) <==> row in s.rows;
      if n > 0 {
        var rest := keys[1..];
        forall i | 0 < i < |keys|
          ensures Blocked(s.rows, u, name, keys, i) <==> Blocked(s.rows + {row}, u, name, rest, i - 1)
        {
          assert keys[i] == rest[i - 1];
          assert keys[..i] == [keys[0]] + rest[..i - 1];
        }
        forall i | 0 <= i < n - 1
          ensures !Blocked(s.rows + {row}, u, name, rest, i)
        {
          assert !Blocked(s.rows, u, name, keys, i + 1);
        }
        CoursesAddedRows(s.(rows := s.rows + {row}), u, name, rest, n - 1, q);
        IsForRest(q, name, keys, n);
      }
    }
  }

  lemma IsForRest(q: Role, name: string, keys: seq<CourseKey>, n: nat)
    requires 0 < n <= |keys|
    ensures IsForOneOf(q, name, keys, n) <==> q == CourseRole(name, keys[0]) || IsForOneOf(q, name, keys[1..], n - 1)
  {
    if IsForOneOf(q, name, keys, n) && q != CourseRole(name, keys[0]) {
      var i :| 0 <= i < n && q == Role(name, keys[i].org, Some(keys[i]));
      assert keys[1..][i - 1] == keys[i];
    }
    if IsForOneOf(q, name, keys[1..], n - 1) {
      var i :| 0 <= i < n - 1 && q == Role(name, keys[1..][i].org, Some(keys[1..][i]));
      assert keys[i + 1] == keys[1..][i];
    }
  }

  /**
    Adding courses gives an active user the role in each course up to the first that they hold or that is
    repeated, and nothing else; the call succeeds exactly if there is none.
   */
  lemma AddCoursesExactly(s: State, u: UserId, name: string, keys: seq<CourseKey>, v: UserId, q: Role)
    ensures var (t, outcome) := Step(s, AddCourses(u, name, keys));
            var n := FirstBlocked(s.rows, u, name, keys);
            && (outcome == NotActive <==> u !in s.active)
            && (outcome == Done <==> u in s.active && n == |keys|)
            && (HasRole(t, v, q) <==>
                HasRole(s, v, q) || (v == u && u in s.active && IsForOneOf(q, name, keys, n)))
  {
    CoursesAddedRows(s, u, name, keys, FirstBlocked(s.rows, u, name, keys), q);
    CoursesAddedIsExact(s, u, name, keys);
  }

  /** Checks change no answer of the table, and a user made active or inactive has their rows or nothing. */
  lemma ChecksAndActivationExactly(s: State, op: Op, v: UserId, q: Role)
    requires op.HasUser? || op.HasCourse? || op.SetActive?
    ensures HasRole(Step(s, op).0, v, q) <==>
            Row(v, q) in s.rows && if op.SetActive? && v == op.user then op.on else v in s.active
  {
  }

  predicate Concerns(op: Op, v: UserId) {
    match op
    case AddUsers(us, _) => v in us
    case RemoveUsers(us, _) => v in us
    case _ => v == op.user && !op.SetActive?
  }

  /** No operation touches the cache of a user it is not about. */
  lemma OtherCachesStay(s: State, op: Op, v: UserId)
    requires !Concerns(op, v)
    ensures var t := Step(s, op).0;
            (v in t.cached <==> v in s.cached) && (v in s.cached ==> t.cached[v] == s.cached[v])
  {
    match op {
      case AddUsers(us, role) => AddedAllKeepsOthers(s, us, role, v);
      case AddCourses(u, name, keys) => CoursesAddedIsExact(s, u, name, keys);
      case _ =>
    }
  }

  lemma {:induction false} AddedAllKeepsOthers(s: State, us: seq<UserId>, role: Role, v: UserId)
    requires v !in us
    ensures var t := AddedAll(s, us, role).0;
            (v in t.cached <==> v in s.cached) && (v in s.cached ==> t.cached[v] == s.cached[v])
    decreases |us|
  {
    if us != [] {
      AddedAllKeepsOthers(GrantedTo(s, us[0], role), us[1..], role, v);
    }
  }

  function Run(s: State, ops: seq<Op>): State {
    if ops == [] then s else Step(Run(s, ops[..|ops| - 1]), ops[|ops| - 1]).0
  }

  ghost predicate NeverStale(s: State, ops: seq<Op>) {
    ops == [] || (NeverStale(s, ops[..|ops| - 1]) && !Stale(Run(s, ops[..|ops| - 1]), ops[|ops| - 1]))
  }

  /** Over any run without a stopped `add_course`, every check answers as if there were no cache. */
  lemma {:induction false} CacheRefinesTable(s: State, ops: seq<Op>, u: UserId, role: Role)
    requires Coherent(s) && NeverStale(s, ops)
    ensures Coherent(Run(s, ops))
    ensures Answers(Run(s, ops), u, role) <==> HasRole(Run(s, ops), u, role)
  {
    if ops != [] {
      CacheRefinesTable(s, ops[..|ops| - 1], u, role);
      StepCoherentExactly(Run(s, ops[..|ops| - 1]), ops[|ops| - 1]);
    }
    CheckIsExact(Run(s, ops), u, role);
  }

  /** Every check would answer now as if there were no cache. */
  ghost predicate AnswersRight(s: State) {
    forall u: UserId, role :: Answers(s, u, role) <==> HasRole(s, u, role)
  }

  /** And so it would have before each of the operations. */
  ghost predicate AlwaysAnswersRight(s: State, ops: seq<Op>) {
    AnswersRight(Run(s, ops)) && (ops == [] || AlwaysAnswersRight(s, ops[..|ops| - 1]))
  }

  /** The call that leaves a stale cache hides the first role it saved. */
  lemma StaleHidesRole(s: State, op: Op)
    requires Coherent(s) && Stale(s, op)
    ensures !AnswersRight(Step(s, op).0)
  {
    var role, t := CourseRole(op.name, op.keys[0]), Step(s, op).0;
    CoursesAddedIsExact(s, op.user, op.name, op.keys);
    assert role !in Held(s.rows, op.user);
    assert HasRole(t, op.user, role) && !Answers(t, op.user, role);
  }

  /** All through a run, every check answers as if there were no cache, exactly if no `add_course` is stopped so. */
  lemma {:induction false} CacheRefinesTableExactly(s: State, ops: seq<Op>)
    requires Coherent(s)
    ensures AlwaysAnswersRight(s, ops) <==> NeverStale(s, ops)
  {
    if ops != [] {
      CacheRefinesTableExactly(s, ops[..|ops| - 1]);
    }
    if NeverStale(s, ops) {
      forall u: UserId, role
        ensures Answers(Run(s, ops), u, role) <==> HasRole(Run(s, ops), u, role)
      {
        CacheRefinesTable(s, ops, u, role);
      }
    } else if NeverStale(s, ops[..|ops| - 1]) {
      CacheRefinesTable(s, ops[..|ops| - 1], 0, Role("", "", None));
      StaleHidesRole(Run(s, ops[..|ops| - 1]), ops[|ops| - 1]);
    }
  }

  /** A stopped `add_course` does happen: naming a new course and then a held one hides the new role. */
  lemma StoppedAddCourseHidesRole(s: State, u: UserId, name: string, held: CourseKey, added: CourseKey)
    requires Coherent(s) && u in s.active && u in s.cached
    requires Row(u, CourseRole(name, held)) in s.rows && Row(u, CourseRole(name, added)) !in s.rows
    ensures var t := Step(s, AddCourses(u, name, [added, held])).0;
            HasRole(t, u, CourseRole(name, added)) && !Answers(t, u, CourseRole(name, added))
  {
    var row := Row(u, CourseRole(name, added));
    var t := s.(rows := s.rows + {row});
    assert [added, held][1..] == [held];
    assert CoursesAdded(t, u, name, [held]) == (t, IntegrityError);
    assert CoursesAdded(s, u, name, [added, held]) == (t, IntegrityError);
    CheckIsExact(s, u, CourseRole(name, added));
  }
}
