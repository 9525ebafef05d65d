/** The course-creator table and the group it keeps (cms/djangoapps/course_creators). */
module CourseCreators {
  import opened Wrappers
  import Roles

  type UserId = nat

  datatype Status = Unrequested | Pending | Granted | Denied

  /** Notices sent: a user's new status to the user, a pending request to the administrators. */
  datatype Notice = ToUser(user: UserId, status: Status) | ToAdmins(user: UserId)

  const CREATOR: Roles.Role := Roles.Role("course_creator_group", "", None)

  datatype State = State(table: map<UserId, Status>, roles: Roles.State, staff: set<UserId>, notices: seq<Notice>)

  datatype Outcome = Done | NotFound | PermissionDenied | AssertionFailed

  /** Whether the caller may change the creator group: active staff only. */
  predicate HasAuthority(s: State, caller: UserId) {
    caller in s.roles.active && caller in s.staff
  }

  predicate InGroup(s: State, u: UserId) {
    Roles.Row(u, CREATOR) in s.roles.rows
  }

  function WithGroup(s: State, u: UserId, add: bool): State {
    s.(roles := if add then Roles.AddedAll(s.roles, [u], CREATOR).0 else Roles.RemovedAll(s.roles, [u], CREATOR))
  }

  /** `update_course_creator_group`; removing oneself needs no authority. */
  predicate GroupChangeAllowed(s: State, caller: UserId, u: UserId, add: bool) {
    HasAuthority(s, caller) || (!add && caller == u)
  }

  function GroupUpdated(s: State, caller: UserId, u: UserId, add: bool): (State, Outcome) {
    if GroupChangeAllowed(s, caller, u, add) then (WithGroup(s, u, add), Done) else (s, PermissionDenied)
  }

  /** What follows a saved change of status from `was` to `now`, up to the first exception. */
  function Announced(s: State, admin: Option<UserId>, u: UserId, was: Status, now: Status): (State, Outcome) {
    var grantChange := now == Granted || was == Granted;
    if grantChange && admin.None? then (s, AssertionFailed)
    else
      var (t, outcome) := if grantChange then GroupUpdated(s, admin.value, u, now == Granted) else (s, Done);
      if outcome != Done then (t, outcome)
      else
        (t.(notices := t.notices + (if now == Denied || grantChange then [ToUser(u, now)] else [])
                       + (if now == Pending then [ToAdmins(u)] else [])), Done)
  }

  /** Saving an instance: the row is written first, the rest follows. */
  function SavedInstance(s: State, admin: Option<UserId>, u: UserId, was: Status, now: Status): (State, Outcome) {
    var t := s.(table := s.table[u := now]);
    if was == now then (t, Done) else Announced(t, admin, u, was, now)
  }

  datatype Op =
    | AddUnrequested(user: UserId)
    | AddGranted(caller: UserId, user: UserId)
    | RequestAccess(user: UserId)
    | AdminSave(admin: UserId, user: UserId, status: Status)
    | SetActive(user: UserId, on: bool)
    | SetStaff(user: UserId, on: bool)

  function Step(s: State, op: Op): (State, Outcome) {
    match op
    case AddUnrequested(u) =>
      if u in s.staff || u in s.table then (s, Done) else (s.(table := s.table[u := Unrequested]), Done)
    case AddGranted(caller, u) =>
      if u in s.staff || u in s.table then (s, Done)
      else GroupUpdated(s.(table := s.table[u := Granted]), caller, u, true)
    case RequestAccess(u) =>
      if u !in s.table then (s, NotFound)
      else if s.table[u] == Granted then (s, Done)
      else SavedInstance(s, None, u, s.table[u], Pending)
    case AdminSave(admin, u, status) =>
      if u !in s.table then (s, NotFound) else SavedInstance(s, Some(admin), u, s.table[u], status)
    case SetActive(u, on) => (s.(roles := Roles.Step(s.roles, Roles.SetActive(u, on)).0), Done)
    case SetStaff(u, on) => (s.(staff := if on then s.staff + {u} else s.staff - {u}), Done)
  }

  /** A row in memory, with the attributes the signal handlers hang on it. */
  class CourseCreator {
    const user: UserId
    var status: Status
    var origStatus: Status
    var admin: Option<UserId>

    /** Construction, and the `post_init` handler. */
    constructor (user: UserId, status: Status)
      ensures this.user == user && this.status == status && origStatus == status && admin == None
    {
      this.user, this.status, this.origStatus, this.admin := user, status, status, None;
    }
  }

  class CreatorTable {
    var table: map<UserId, Status>
    const roles: Roles.RoleStore
    var staff: set<UserId>
    var notices: seq<Notice>
    /** how often a row has been written */
    var writes: nat

    function Abs(): State
      reads this, roles
    {
      State(table, roles.Abs(), staff, notices)
    }

    constructor (roles: Roles.RoleStore, staff: set<UserId>)
      ensures this.roles == roles && table == map[] && this.staff == staff && notices == [] && writes == 0
    {
      this.roles := roles;
      table, this.staff, notices, writes := map[], staff, [], 0;
    }

    method UpdateGroup(caller: UserId, u: UserId, add: bool) returns (outcome: Outcome)
      requires Roles.Coherent(roles.Abs())
      modifies roles
      ensures (Abs(), outcome) == GroupUpdated(old(Abs()), caller, u, add)
      ensures Roles.Coherent(roles.Abs())
    {
      Roles.AddUsersIsExact(roles.Abs(), [u], CREATOR);
      Roles.StepCoherentExactly(roles.Abs(), Roles.RemoveUsers([u], CREATOR));
      if add || caller != u {
        if !(caller in roles.active && caller in staff) {
          return PermissionDenied;
        }
      }
      if add {
        var _ := roles.AddUsersToRole([u], CREATOR);
      } else {
        roles.RemoveUsersFromRole([u], CREATOR);
      }
      return Done;
    }

    /** `instance.save()`: the write, then the `post_save` handler. */
    method Save(instance: CourseCreator) returns (outcome: Outcome)
      requires Roles.Coherent(roles.Abs())
      modifies this, roles, instance
      ensures (Abs(), outcome) ==
              SavedInstance(old(Abs()), old(instance.admin), instance.user, old(instance.origStatus),
                            old(instance.status))
      ensures outcome == Done ==> instance.origStatus == instance.status
      ensures instance.status == old(instance.status) && instance.admin == old(instance.admin)
      ensures Roles.Coherent(roles.Abs()) && staff == old(staff)
      ensures writes == old(writes) + (if old(instance.origStatus == instance.status) || outcome != Done then 1 else 2)
      decreases if instance.status != instance.origStatus then 1 else 0, 1
    {
      table := table[instance.user := instance.status];
      writes := writes + 1;
      outcome := PostSave(instance);
    }

    method PostSave(instance: CourseCreator) returns (outcome: Outcome)
      requires Roles.Coherent(roles.Abs())
      requires instance.user in table && table[instance.user] == instance.status
      modifies this, roles, instance
      ensures (Abs(), outcome) ==
              if old(instance.origStatus == instance.status) then (old(Abs()), Done)
              else Announced(old(Abs()), old(instance.admin), instance.user, old(instance.origStatus),
                             old(instance.status))
      ensures outcome == Done ==> instance.origStatus == instance.status
      ensures instance.status == old(instance.status) && instance.admin == old(instance.admin)
      ensures Roles.Coherent(roles.Abs()) && staff == old(staff)
      ensures writes == old(writes) + (if old(instance.origStatus == instance.status) || outcome != Done then 0 else 1)
      decreases if instance.status != instance.origStatus then 1 else 0, 0
    {
      if instance.status == instance.origStatus {
        return Done;
      }
      var grantChange := instance.status == Granted || instance.origStatus == Granted;
      if grantChange {
        if instance.admin.None? {
          return AssertionFailed;
        }
        outcome := UpdateGroup(instance.admin.value, instance.user, instance.status == Granted);
        if outcome != Done {
          return outcome;
        }
      }
      ghost var before := notices;
      if instance.status == Denied || grantChange {
        notices := notices + [ToUser(instance.user, instance.status)];
      }
      if instance.status == Pending {
        notices := notices + [ToAdmins(instance.user)];
      }
      assert notices == before
        + (if instance.status == Denied || grantChange then [ToUser(instance.user, instance.status)] else [])
        + (if instance.status == Pending then [ToAdmins(instance.user)] else []);
      instance.origStatus := instance.status;
      assert table[instance.user := instance.status] == table;
      outcome := Save(instance);
    }

    method AddUser(u: UserId, status: Status) returns (added: bool)
      requires Roles.Coherent(roles.Abs())
      modifies this, roles
      ensures added == (u !in old(staff) && u !in old(table))
      ensures Abs() == if added then old(Abs()).(table := old(table)[u := status]) else old(Abs())
      ensures Roles.Coherent(roles.Abs())
    {
      if u !in staff && u !in table {
        var entry := new CourseCreator(u, status);
        var _ := Save(entry);
        return true;
      }
      return false;
    }

    method AddUserWithStatusUnrequested(u: UserId)
      requires Roles.Coherent(roles.Abs())
      modifies this, roles
      ensures Abs() == Step(old(Abs()), AddUnrequested(u)).0 && Roles.Coherent(roles.Abs())
    {
      var _ := AddUser(u, Unrequested);
    }

    method AddUserWithStatusGranted(caller: UserId, u: UserId) returns (outcome: Outcome)
      requires Roles.Coherent(roles.Abs())
      modifies this, roles
      ensures (Abs(), outcome) == Step(old(Abs()), AddGranted(caller, u)) && Roles.Coherent(roles.Abs())
    {
      var added := AddUser(u, Granted);
      if added {
        outcome := UpdateGroup(caller, u, true);
      } else {
        outcome := Done;
      }
    }

    method UserRequestedAccess(u: UserId) returns (outcome: Outcome)
      requires Roles.Coherent(roles.Abs())
      modifies this, roles
      ensures (Abs(), outcome) == Step(old(Abs()), RequestAccess(u)) && Roles.Coherent(roles.Abs())
    {
      if u !in table {
        return NotFound;
      }
      var entry := new CourseCreator(u, table[u]);
      if entry.status != Granted {
        entry.status := Pending;
        outcome := Save(entry);
      } else {
        outcome := Done;
      }
    }

    /** `save_model` on the row edited in the admin form */
    method SaveModel(admin: UserId, u: UserId, status: Status) returns (outcome: Outcome)
      requires Roles.Coherent(roles.Abs())
      modifies this, roles
      ensures (Abs(), outcome) == Step(old(Abs()), AdminSave(admin, u, status)) && Roles.Coherent(roles.Abs())
      ensures writes <= old(writes) + 2
    {
      if u !in table {
        return NotFound;
      }
      var entry := new CourseCreator(u, table[u]);
      entry.status := status;
      entry.admin := Some(admin);
      outcome := Save(entry);
    }
  }

  /** The group is exactly the users whose status is granted. */
  predicate InStep(s: State, u: UserId) {
    InGroup(s, u) <==> (u in s.table && s.table[u] == Granted)
  }

  ghost predicate InSync(s: State) {
    Roles.Coherent(s.roles) && forall u: UserId :: InStep(s, u)
  }

  /** A grant that cannot take: the caller has no authority over the group, or the user is inactive. */
  predicate GrantFails(s: State, caller: UserId, u: UserId) {
    !HasAuthority(s, caller) || u !in s.roles.active
  }

  /** The operations that part the table from the group. */
  predicate PartsThem(s: State, op: Op) {
    match op
    case AddGranted(caller, u) => u !in s.staff && u !in s.table && GrantFails(s, caller, u)
    case AdminSave(admin, u, status) =>
      && u in s.table && s.table[u] != status
      && ((status == Granted && GrantFails(s, admin, u)) ||
          (s.table[u] == Granted && !GroupChangeAllowed(s, admin, u, false)))
    case _ => false
  }

  lemma GroupUpdateEffect(s: State, u: UserId, add: bool, v: UserId)
    requires Roles.Coherent(s.roles)
    ensures var t := WithGroup(s, u, add);
            && Roles.Coherent(t.roles) && t.roles.active == s.roles.active
            && (InGroup(t, v) <==> if v == u && add then InGroup(s, u) || u in s.roles.active
                                   else if v == u then false else InGroup(s, v))
  {
    Roles.AddUsersIsExact(s.roles, [u], CREATOR);
    Roles.StepCoherentExactly(s.roles, Roles.RemoveUsers([u], CREATOR));
  }

  lemma StepKeepsCoherent(s: State, op: Op)
    requires Roles.Coherent(s.roles)
    ensures Roles.Coherent(Step(s, op).0.roles)
  {
    if op.AddGranted? || op.AdminSave? {
      GroupUpdateEffect(s, op.user, true, op.user);
      GroupUpdateEffect(s, op.user, false, op.user);
    }
  }

  lemma StepGroup(s: State, op: Op, v: UserId)
    requires InSync(s)
    ensures InStep(Step(s, op).0, v) <==> !(PartsThem(s, op) && v == op.user)
  {
    assert InStep(s, v);
    if op.AddGranted? || op.AdminSave? {
      GroupUpdateEffect(s, op.user, true, v);
      GroupUpdateEffect(s, op.user, false, v);
    }
  }

  /** From agreement, a step keeps table and group in agreement exactly when it is not one of those. */
  lemma StepInSyncExactly(s: State, op: Op)
    requires InSync(s)
    ensures InSync(Step(s, op).0) <==> !PartsThem(s, op)
  {
    StepKeepsCoherent(s, op);
    StepGroup(s, op, op.user);
    forall v: UserId | !PartsThem(s, op)
      ensures InStep(Step(s, op).0, v)
    {
      StepGroup(s, op, v);
    }
  }

  function Run(s: State, ops: seq<Op>): State {
    if ops == [] then s else Step(Run(s, ops[..|ops| - 1]), ops[|ops| - 1]).0
  }

  /** No operation of the run parts table and group. */
  ghost predicate NeverParts(s: State, ops: seq<Op>) {
    ops == [] || (NeverParts(s, ops[..|ops| - 1]) && !PartsThem(Run(s, ops[..|ops| - 1]), ops[|ops| - 1]))
  }

  /** They agree now, and did before each of the operations. */
  ghost predicate AlwaysInSync(s: State, ops: seq<Op>) {
    InSync(Run(s, ops)) && (ops == [] || AlwaysInSync(s, ops[..|ops| - 1]))
  }

  /**
    All through a run, a user is in the creator group exactly when their status is granted, if and only if
    grants and revocations are made by active staff and grants are to active users.
   */
  lemma {:induction false} GroupMatchesTableExactly(s: State, ops: seq<Op>)
    requires InSync(s)
    ensures AlwaysInSync(s, ops) <==> NeverParts(s, ops)
  {
    if ops != [] {
      GroupMatchesTableExactly(s, ops[..|ops| - 1]);
      if NeverParts(s, ops[..|ops| - 1]) {
        StepInSyncExactly(Run(s, ops[..|ops| - 1]), ops[|ops| - 1]);
      }
    }
  }

  // ---------------------------------------------------------------- what each operation leaves

  /** The status each operation stores, whether or not what follows is refused; nobody else's changes. */
  lemma StatusStored(s: State, op: Op, v: UserId)
    ensures var t := Step(s, op).0;
            (if v in t.table then Some(t.table[v]) else None) ==
            if v != op.user then (if v in s.table then Some(s.table[v]) else None)
            else if v !in s.table
            then (if op.AddUnrequested? && v !in s.staff then Some(Unrequested)
                  else if op.AddGranted? && v !in s.staff then Some(Granted)
                  else None)
            else if op.RequestAccess? && s.table[v] != Granted then Some(Pending)
            else if op.AdminSave? then Some(op.status)
            else Some(s.table[v])
  {
  }

  /** Active and staff. */
  predicate ActiveStaff(s: State, u: UserId) {
    u in s.staff && u in s.roles.active
  }

  /** Who is staff and who is active changes only by the operations that say so. */
  lemma StaffAndActiveExactly(s: State, op: Op, v: UserId)
    requires Roles.Coherent(s.roles)
    ensures v in Step(s, op).0.staff <==> if op.SetStaff? && v == op.user then op.on else v in s.staff
    ensures v in Step(s, op).0.roles.active <==> if op.SetActive? && v == op.user then op.on else v in s.roles.active
  {
    if op.AddGranted? || op.AdminSave? {
      GroupUpdateEffect(s, op.user, true, v);
      GroupUpdateEffect(s, op.user, false, v);
    }
  }

  /** When an operation is refused, and when there is no row for it. */
  lemma OutcomeExactly(s: State, op: Op)
    ensures Step(s, op).1 == NotFound <==> (op.RequestAccess? || op.AdminSave?) && op.user !in s.table
    ensures Step(s, op).1 == PermissionDenied <==>
            || (op.AddGranted? && op.user !in s.staff && op.user !in s.table && !ActiveStaff(s, op.caller))
            || (op.AdminSave? && op.user in s.table && op.status != s.table[op.user] && !ActiveStaff(s, op.admin) &&
                (op.status == Granted || (s.table[op.user] == Granted && op.admin != op.user)))
  {
  }

  /** The notices of a step, told from the status before and after: none unless it changed and nothing was refused. */
  lemma NoticesExactly(s: State, op: Op)
    ensures var (t, outcome) := Step(s, op);
            t.notices == s.notices +
              if op.user !in s.table || op.user !in t.table || outcome != Done then []
              else
                var was, now := s.table[op.user], t.table[op.user];
                if was == now then []
                else if now == Denied || now == Granted then [ToUser(op.user, now)]
                else (if was == Granted then [ToUser(op.user, now)] else []) +
                     (if now == Pending then [ToAdmins(op.user)] else [])
  {
    if op.AdminSave? || op.RequestAccess? {
      var t := Step(s, op).0;
      assert s.notices + [] == s.notices;
    }
  }

  /** The group after a step: grants add the user if they are active, revocations take them out, unless refused. */
  lemma GroupExactly(s: State, op: Op, v: UserId)
    requires Roles.Coherent(s.roles)
    ensures var (t, outcome) := Step(s, op);
            InGroup(t, v) <==>
            if v != op.user || outcome != Done then InGroup(s, v)
            else if (op.AddGranted? && v !in s.staff && v !in s.table) ||
                    (op.AdminSave? && s.table[v] != Granted && op.status == Granted)
            then InGroup(s, v) || v in s.roles.active
            else if op.AdminSave? && s.table[v] == Granted && op.status != Granted then false
            else InGroup(s, v)
  {
    if op.AddGranted? || op.AdminSave? {
      GroupUpdateEffect(s, op.user, true, v);
      GroupUpdateEffect(s, op.user, false, v);
    }
  }

  /** No step gives or takes a row of another role, or of another user. */
  lemma OtherRolesStay(s: State, op: Op, r: Roles.Row)
    requires Roles.Coherent(s.roles) && (r.role.name != "course_creator_group" || r.user != op.user)
    ensures r in Step(s, op).0.roles.rows <==> r in s.roles.rows
  {
    Roles.AddUsersIsExact(s.roles, [op.user], CREATOR);
  }

  /** The handler's assertion that an administrator is stored never fails, in any state. */
  lemma AdminAlwaysStored(s: State, op: Op)
    ensures Step(s, op).1 != AssertionFailed
  {
  }

  /** A grant to an inactive user is written and announced, and the group stays without them. */
  lemma GrantToInactiveLeavesRowWritten(s: State, admin: UserId, u: UserId)
    requires InSync(s) && u in s.table && s.table[u] != Granted && HasAuthority(s, admin) && u !in s.roles.active
    ensures var (t, outcome) := Step(s, AdminSave(admin, u, Granted));
            outcome == Done && t.table[u] == Granted && !InGroup(t, u)
  {
    assert InStep(s, u);
    GroupUpdateEffect(s, u, true, u);
  }

  /** A refused addition does not undo the row: the status is written before the caller's authority is asked. */
  lemma DeniedLeavesRowWritten(s: State, caller: UserId, u: UserId)
    requires InSync(s) && u !in s.staff && u !in s.table && !HasAuthority(s, caller)
    ensures var (t, outcome) := Step(s, AddGranted(caller, u));
            outcome == PermissionDenied && t.table[u] == Granted && !InGroup(t, u)
  {
    assert InStep(s, u);
  }
}
