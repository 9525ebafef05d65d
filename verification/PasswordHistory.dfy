/** Password reuse and reset spacing (common/djangoapps/student/models.py, views.py). */
module PasswordHistory {
  import opened Wrappers
  import opened Sequences
  import Decimal

  type UserId = nat
  /** Microseconds. */
  type Time = int

  const DAY: int := 86_400_000_000

  datatype Algorithm = Pbkdf2Sha256 | Sha1 | Unlisted

  /** A stored password. Hashing one salt is injective, so the password itself stands for its digest. */
  datatype Hash = Hash(algorithm: Algorithm, salt: nat, password: string)

  datatype Entry = Entry(user: UserId, hash: Hash, timeSet: Time)

  datatype Account = Account(staff: bool, hash: Hash)

  datatype Policy = Policy(advancedSecurity: bool, staffReuse: Option<int>, studentReuse: Option<int>,
                           spacingDays: Option<int>, staffForced: bool, studentForced: bool, hasher: Algorithm)
  {
    predicate StaffReuseRestricted() { advancedSecurity && staffReuse.Some? && staffReuse.value > 0 }
    predicate StudentReuseRestricted() { advancedSecurity && studentReuse.Some? && studentReuse.value > 0 }
    predicate FrequencyRestricted() { advancedSecurity && spacingDays.Some? && spacingDays.value != 0 }

    /** Whether changes are recorded at all. */
    predicate Recording() {
      StudentReuseRestricted() || StaffReuseRestricted() || FrequencyRestricted() ||
      (advancedSecurity && (staffForced || studentForced))
    }

    /** How many of the latest passwords may not come back. Staff fall back on the student limit. */
    function ReuseLimit(staff: bool): (limit: nat)
      ensures limit > 0 ==> Recording()
    {
      if staff && StaffReuseRestricted() then staffReuse.value
      else if StudentReuseRestricted() then studentReuse.value
      else 0
    }
  }

  function Days(delta: int): int {
    delta / DAY
  }

  /** The user's entries, oldest first. */
  function Of(history: seq<Entry>, u: UserId): (r: seq<Entry>)
    ensures forall i :: 0 <= i < |r| ==> r[i].user == u
  {
    if history == [] then []
    else Of(history[..|history| - 1], u) + (if history[|history| - 1].user == u then [history[|history| - 1]] else [])
  }

  /** The user's entries ordered by falling `time_set`. */
  function NewestFirst(history: seq<Entry>, u: UserId): seq<Entry> {
    Reverse(Of(history, u))
  }

  /** Whether the reuse check lets a password through, given the latest entries, newest first. */
  predicate ReuseAllowed(policy: Policy, recent: seq<Entry>, password: string) {
    recent == [] ||
    recent[0].hash.algorithm.Unlisted? ||
    (recent[0].hash != Hash(policy.hasher, recent[0].hash.salt, password) &&
     ReuseAllowed(policy, recent[1..], password))
  }

  function Recent(policy: Policy, staff: bool, history: seq<Entry>, u: UserId): seq<Entry> {
    var newest := NewestFirst(history, u);
    if policy.ReuseLimit(staff) <= |newest| then newest[..policy.ReuseLimit(staff)] else newest
  }

  predicate ReuseOk(policy: Policy, staff: bool, history: seq<Entry>, u: UserId, password: string) {
    !policy.advancedSecurity || ReuseAllowed(policy, Recent(policy, staff, history, u), password)
  }

  predicate TooSoon(policy: Policy, history: seq<Entry>, u: UserId, now: Time) {
    policy.FrequencyRestricted() && Of(history, u) != [] &&
    Days(now - Of(history, u)[|Of(history, u)| - 1].timeSet) < policy.spacingDays.value
  }

  datatype State = State(accounts: map<UserId, Account>, history: seq<Entry>)

  /**
    A step that may change passwords or limits. `salt` is the salt drawn if a password is set; in a reset,
    `weak` is the answer of the strength policy, `accepted` whether the link and the form are good, and
    the clock is read at `checkedAt` and `stampedAt`. New accounts are never staff; they may become staff.
   */
  datatype Op =
    | Create(user: UserId, password: string, salt: nat, stampedAt: Time)
    | SetStaff(user: UserId, on: bool, stampedAt: Time)
    | Reset(user: UserId, password: string, salt: nat, weak: bool, accepted: bool, checkedAt: Time, stampedAt: Time)

  function Recorded(policy: Policy, s: State, u: UserId, now: Time): State
    requires u in s.accounts
  {
    if policy.Recording() then s.(history := s.history + [Entry(u, s.accounts[u].hash, now)]) else s
  }

  predicate ResetAllowed(policy: Policy, s: State, op: Op)
    requires op.Reset?
  {
    && op.user in s.accounts && !op.weak
    && ReuseOk(policy, s.accounts[op.user].staff, s.history, op.user, op.password)
    && !TooSoon(policy, s.history, op.user, op.checkedAt)
  }

  /** A password refused to staff under the student limit, while the staff setting is absent. */
  predicate SettingMissed(policy: Policy, s: State, op: Op)
    requires op.Reset? && op.user in s.accounts
  {
    s.accounts[op.user].staff && policy.staffReuse.None? && !ReuseOk(policy, true, s.history, op.user, op.password)
  }

  function Step(policy: Policy, s: State, op: Op): State {
    match op
    case Create(u, password, salt, now) =>
      if u in s.accounts then s
      else
        Recorded(policy, s.(accounts := s.accounts[u := Account(false, Hash(policy.hasher, salt, password))]), u, now)
    case SetStaff(u, on, _) =>
      if u in s.accounts then s.(accounts := s.accounts[u := s.accounts[u].(staff := on)]) else s
    case Reset(u, password, salt, weak, accepted, checkedAt, stampedAt) =>
      if !ResetAllowed(policy, s, op) || !accepted then s
      else
        var hash := Hash(policy.hasher, salt, password);
        if hash == s.accounts[u].hash then s
        else Recorded(policy, s.(accounts := s.accounts[u := s.accounts[u].(hash := hash)]), u, stampedAt)
  }

  datatype Response = Done | DuplicateUser | NoSuchUser | PolicyViolated | SettingMissing

  class PasswordStore {
    const policy: Policy
    var accounts: map<UserId, Account>
    var history: seq<Entry>

    function Abs(): State
      reads this
    {
      State(accounts, history)
    }

    constructor (policy: Policy)
      ensures this.policy == policy && Abs() == State(map[], [])
    {
      this.policy := policy;
      accounts, history := map[], [];
    }

    /** `PasswordHistory().create(user)` */
    method RecordPassword(u: UserId, now: Time)
      requires u in accounts
      modifies this`history
      ensures Abs() == Recorded(policy, old(Abs()), u, now)
    {
      if !(policy.StudentReuseRestricted() || policy.StaffReuseRestricted() || policy.FrequencyRestricted() ||
           (policy.advancedSecurity && policy.staffForced) || (policy.advancedSecurity && policy.studentForced)) {
        return;
      }
      history := history + [Entry(u, accounts[u].hash, now)];
    }

    method IsPasswordResetTooSoon(u: UserId, now: Time) returns (soon: bool)
      ensures soon == TooSoon(policy, history, u, now)
    {
      if !policy.FrequencyRestricted() {
        return false;
      }
      var entries := NewestFirst(history, u);
      if entries == [] {
        return false;
      }
      soon := Days(now - entries[0].timeSet) < policy.spacingDays.value;
    }

    method IsAllowablePasswordReuse(u: UserId, staff: bool, password: string) returns (ok: bool)
      ensures ok == ReuseOk(policy, staff, history, u, password)
    {
      if !policy.advancedSecurity {
        return true;
      }
      var required := 0;
      if staff && policy.StaffReuseRestricted() {
        required := policy.staffReuse.value;
      } else if policy.StudentReuseRestricted() {
        required := policy.studentReuse.value;
      }
      var recent := NewestFirst(history, u);
      if required < |recent| {
        recent := recent[..required];
      }
      assert recent == Recent(policy, staff, history, u);
      for i := 0 to |recent|
        invariant ReuseAllowed(policy, recent, password) == ReuseAllowed(policy, recent[i..], password)
      {
        var entry := recent[i];
        assert recent[i..][0] == entry && recent[i..][1..] == recent[i + 1..];
        if entry.hash.algorithm.Unlisted? {
          return true;
        }
        var hashed := Hash(policy.hasher, entry.hash.salt, password);
        if entry.hash == hashed {
          return false;
        }
      }
      return true;
    }

    method CreateAccount(op: Op) returns (response: Response)
      requires op.Create?
      modifies this
      ensures Abs() == Step(policy, old(Abs()), op)
      ensures response == if op.user in old(accounts) then DuplicateUser else Done
    {
      if op.user in accounts {
        return DuplicateUser;
      }
      accounts := accounts[op.user := Account(false, Hash(policy.hasher, op.salt, op.password))];
      RecordPassword(op.user, op.stampedAt);
      return Done;
    }

    /** An administrator's or a command's change of `is_staff` */
    method SetStaffFlag(op: Op)
      requires op.SetStaff?
      modifies this
      ensures Abs() == Step(policy, old(Abs()), op)
    {
      if op.user in accounts {
        accounts := accounts[op.user := accounts[op.user].(staff := op.on)];
      }
    }

    /** `password_reset_confirm_wrapper` on a posted form */
    method ResetPassword(op: Op) returns (response: Response)
      requires op.Reset?
      modifies this
      ensures Abs() == Step(policy, old(Abs()), op)
      ensures response == if op.user !in old(accounts) then NoSuchUser
                          else if ResetAllowed(policy, old(Abs()), op) then Done
                          else if SettingMissed(policy, old(Abs()), op) then SettingMissing else PolicyViolated
    {
      if op.user !in accounts {
        // the policy checks that follow read a name that was never bound
        return NoSuchUser;
      }
      var refused := op.weak;
      var reuseOk := IsAllowablePasswordReuse(op.user, accounts[op.user].staff, op.password);
      if !reuseOk {
        // the message for staff quotes the staff setting, whichever limit refused the password
        if accounts[op.user].staff && policy.staffReuse.None? {
          return SettingMissing;
        }
        refused := true;
      }
      var soon := IsPasswordResetTooSoon(op.user, op.checkedAt);
      if soon {
        refused := true;
      }
      if refused {
        return PolicyViolated;
      }
      var oldHash := accounts[op.user].hash;
      if op.accepted {
        accounts := accounts[op.user := accounts[op.user].(hash := Hash(policy.hasher, op.salt, op.password))];
      }
      if accounts[op.user].hash != oldHash {
        RecordPassword(op.user, op.stampedAt);
      } else {
        assert accounts == old(accounts);
      }
      return Done;
    }
  }

  function Run(policy: Policy, ops: seq<Op>): State {
    if ops == [] then State(map[], []) else Step(policy, Run(policy, ops[..|ops| - 1]), ops[|ops| - 1])
  }

  function CurrentHash(s: State, u: UserId): Option<Hash> {
    if u in s.accounts then Some(s.accounts[u].hash) else None
  }

  /** The password a step gives the user, if it gives one. */
  function HeldNext(s: State, t: State, u: UserId): seq<string> {
    if CurrentHash(t, u) != CurrentHash(s, u) && u in t.accounts then [t.accounts[u].hash.password] else []
  }

  /** Every password the user has held, oldest first, told from the accounts alone. */
  function Held(policy: Policy, ops: seq<Op>, u: UserId): seq<string> {
    if ops == [] then []
    else
      Held(policy, ops[..|ops| - 1], u) + HeldNext(Run(policy, ops[..|ops| - 1]), Run(policy, ops), u)
  }

  /** Each op stamps its entry no earlier than it checked, and later than every entry before it. */
  predicate TimesIncrease(ops: seq<Op>) {
    && (forall i :: 0 <= i < |ops| && ops[i].Reset? ==> ops[i].checkedAt <= ops[i].stampedAt)
    && (forall i, j :: 0 <= i < j < |ops| ==> ops[i].stampedAt < ops[j].stampedAt)
  }

  /** The history table is the list of passwords held: nothing is lost, repeated or reordered. */
  ghost predicate HistoryMatches(policy: Policy, s: State, held: seq<string>, u: UserId) {
    && |Of(s.history, u)| == |held|
    && (forall i :: 0 <= i < |held| ==> Of(s.history, u)[i].hash.password == held[i])
    && (forall i :: 0 <= i < |held| ==> Of(s.history, u)[i].hash.algorithm == policy.hasher)
    && (u in s.accounts <==> held != [])
    && (u in s.accounts ==> s.accounts[u].hash == Of(s.history, u)[|held| - 1].hash)
  }

  lemma OfAppend(history: seq<Entry>, e: Entry, u: UserId)
    ensures Of(history + [e], u) == if e.user == u then Of(history, u) + [e] else Of(history, u)
  {
    assert (history + [e])[..|history|] == history;
  }

  /** What one step may do to a user: nothing, or a new password and the entry for it. */
  ghost predicate ChangesTogether(policy: Policy, s: State, t: State, op: Op, u: UserId) {
    if CurrentHash(t, u) == CurrentHash(s, u) then
      Of(t.history, u) == Of(s.history, u)
    else
      && !op.SetStaff? && op.user == u && u in t.accounts
      && t.accounts[u].hash == Hash(policy.hasher, op.salt, op.password)
      && Of(t.history, u) == Of(s.history, u) + [Entry(u, t.accounts[u].hash, op.stampedAt)]
  }

  lemma StepChangesTogether(policy: Policy, s: State, op: Op, u: UserId)
    requires policy.Recording()
    ensures ChangesTogether(policy, s, Step(policy, s, op), op, u)
  {
    var t := Step(policy, s, op);
    if t != s && !op.SetStaff? {
      OfAppend(s.history, Entry(op.user, t.accounts[op.user].hash, op.stampedAt), u);
    }
  }

  lemma MatchesOneMore(policy: Policy, s: State, t: State, op: Op, held: seq<string>, u: UserId)
    requires HistoryMatches(policy, s, held, u) && ChangesTogether(policy, s, t, op, u)
    ensures HistoryMatches(policy, t, held + HeldNext(s, t, u), u)
  {
  }

  /** Over every run, whoever else changes passwords meanwhile. */
  lemma {:induction false} HistoryIsPasswordsHeld(policy: Policy, ops: seq<Op>, u: UserId)
    requires policy.Recording()
    ensures HistoryMatches(policy, Run(policy, ops), Held(policy, ops, u), u)
  {
    if ops != [] {
      var init, op := ops[..|ops| - 1], ops[|ops| - 1];
      HistoryIsPasswordsHeld(policy, init, u);
      StepChangesTogether(policy, Run(policy, init), op, u);
      MatchesOneMore(policy, Run(policy, init), Run(policy, ops), op, Held(policy, init, u), u);
    }
  }

  lemma {:induction false} ReuseAllowedMeans(policy: Policy, recent: seq<Entry>, password: string)
    requires policy.hasher != Unlisted
    requires forall i :: 0 <= i < |recent| ==> recent[i].hash.algorithm == policy.hasher
    ensures ReuseAllowed(policy, recent, password) <==>
            forall i :: 0 <= i < |recent| ==> recent[i].hash.password != password
  {
    if recent != [] {
      ReuseAllowedMeans(policy, recent[1..], password);
      if ReuseAllowed(policy, recent, password) {
        forall i | 0 <= i < |recent|
          ensures recent[i].hash.password != password
        {
          if i > 0 {
            assert recent[i] == recent[1..][i - 1];
          }
        }
      } else if recent[0].hash.password != password {
        var i :| 0 <= i < |recent[1..]| && recent[1..][i].hash.password == password;
        assert recent[i + 1].hash.password == password;
      }
    }
  }

  /** The latest `n` of `held` do not include `password`. */
  predicate Fresh(held: seq<string>, n: nat, password: string) {
    forall i :: 0 <= i < |held| && |held| - n <= i ==> held[i] != password
  }

  lemma RecentAreLatest(policy: Policy, staff: bool, history: seq<Entry>, u: UserId)
    ensures var entries, recent := Of(history, u), Recent(policy, staff, history, u);
            && |recent| == (if policy.ReuseLimit(staff) <= |entries| then policy.ReuseLimit(staff) else |entries|)
            && forall i :: 0 <= i < |recent| ==> recent[i] == entries[|entries| - 1 - i]
  {
  }

  lemma ReuseOkMeansFresh(policy: Policy, staff: bool, s: State, held: seq<string>, u: UserId, password: string)
    requires policy.advancedSecurity && policy.hasher != Unlisted && HistoryMatches(policy, s, held, u)
    ensures ReuseOk(policy, staff, s.history, u, password) <==> Fresh(held, policy.ReuseLimit(staff), password)
  {
    var recent := Recent(policy, staff, s.history, u);
    RecentAreLatest(policy, staff, s.history, u);
    ReuseAllowedMeans(policy, recent, password);
    FreshMeansRecent(Of(s.history, u), held, recent, policy.ReuseLimit(staff), password);
  }

  lemma FreshMeansRecent(entries: seq<Entry>, held: seq<string>, recent: seq<Entry>, n: nat, password: string)
    requires |entries| == |held| && forall i :: 0 <= i < |held| ==> entries[i].hash.password == held[i]
    requires |recent| == if n <= |held| then n else |held|
    requires forall i :: 0 <= i < |recent| ==> recent[i] == entries[|entries| - 1 - i]
    ensures Fresh(held, n, password) <==> forall i :: 0 <= i < |recent| ==> recent[i].hash.password != password
  {
    forall i | 0 <= i < |held| && |held| - n <= i
      ensures held[i] == recent[|held| - 1 - i].hash.password
    {
    }
    forall i | 0 <= i < |recent|
      ensures recent[i].hash.password == held[|held| - 1 - i]
    {
    }
  }

  /** On every run, the reuse check refuses a password exactly when it is among the user's latest ones. */
  lemma ReuseCheckIsExact(policy: Policy, ops: seq<Op>, u: UserId, staff: bool, password: string)
    requires policy.Recording() && policy.advancedSecurity && policy.hasher != Unlisted
    ensures ReuseOk(policy, staff, Run(policy, ops).history, u, password) <==>
            Fresh(Held(policy, ops, u), policy.ReuseLimit(staff), password)
  {
    HistoryIsPasswordsHeld(policy, ops, u);
    ReuseOkMeansFresh(policy, staff, Run(policy, ops), Held(policy, ops, u), u, password);
  }

  /** The times at which the user's passwords were set, told from the accounts alone. */
  function SetTimes(policy: Policy, ops: seq<Op>, u: UserId): seq<Time> {
    if ops == [] then []
    else
      var init := ops[..|ops| - 1];
      SetTimes(policy, init, u) +
      (if HeldNext(Run(policy, init), Run(policy, ops), u) == [] then [] else [ops[|ops| - 1].stampedAt])
  }

  ghost predicate Dated(entries: seq<Entry>, times: seq<Time>) {
    |entries| == |times| && forall i :: 0 <= i < |times| ==> entries[i].timeSet == times[i]
  }

  lemma {:induction false} EntriesAreDated(policy: Policy, ops: seq<Op>, u: UserId)
    requires policy.Recording()
    ensures Dated(Of(Run(policy, ops).history, u), SetTimes(policy, ops, u))
  {
    if ops != [] {
      var init, op := ops[..|ops| - 1], ops[|ops| - 1];
      EntriesAreDated(policy, init, u);
      StepChangesTogether(policy, Run(policy, init), op, u);
      DatedOneMore(policy, Run(policy, init), Run(policy, ops), op, u, SetTimes(policy, init, u));
    }
  }

  lemma DatedOneMore(policy: Policy, s: State, t: State, op: Op, u: UserId, times: seq<Time>)
    requires Dated(Of(s.history, u), times) && ChangesTogether(policy, s, t, op, u)
    ensures Dated(Of(t.history, u), times + if HeldNext(s, t, u) == [] then [] else [op.stampedAt])
  {
  }

  /** Some policy that looks at past passwords is set. */
  predicate SomePolicySet(policy: Policy) {
    && policy.advancedSecurity
    && (|| (policy.staffReuse.Some? && policy.staffReuse.value > 0)
        || (policy.studentReuse.Some? && policy.studentReuse.value > 0)
        || (policy.spacingDays.Some? && policy.spacingDays.value != 0)
        || policy.staffForced || policy.studentForced)
  }

  /** The password is not among as many of the latest held as the settings ask of this kind of account. */
  predicate RespectsReuse(policy: Policy, staff: bool, held: seq<string>, password: string) {
    if !policy.advancedSecurity || policy.hasher == Unlisted then true
    else if staff && policy.staffReuse.Some? && policy.staffReuse.value > 0
    then Fresh(held, policy.staffReuse.value, password)
    else if policy.studentReuse.Some? && policy.studentReuse.value > 0
    then Fresh(held, policy.studentReuse.value, password)
    else true
  }

  /** The latest password was set at least as many days ago as the settings ask. */
  predicate RespectsSpacing(policy: Policy, times: seq<Time>, now: Time) {
    policy.advancedSecurity && policy.spacingDays.Some? && policy.spacingDays.value != 0 && times != [] ==>
      now - times[|times| - 1] >= policy.spacingDays.value * DAY
  }

  lemma DaysAtLeast(delta: int, n: int)
    ensures Days(delta) >= n <==> delta >= n * DAY
  {
    assert delta == Days(delta) * DAY + delta % DAY;
    if Days(delta) >= n {
      assert Days(delta) * DAY >= n * DAY;
    } else {
      assert Days(delta) * DAY <= (n - 1) * DAY;
    }
  }

  lemma ReuseRespectedExactly(policy: Policy, ops: seq<Op>, u: UserId, staff: bool, password: string)
    ensures ReuseOk(policy, staff, Run(policy, ops).history, u, password) <==>
            RespectsReuse(policy, staff, Held(policy, ops, u), password)
  {
    if policy.Recording() && policy.advancedSecurity && policy.hasher != Unlisted {
      ReuseCheckIsExact(policy, ops, u, staff, password);
    } else {
      if policy.Recording() {
        HistoryIsPasswordsHeld(policy, ops, u);
        UnlistedLetsThrough(policy, staff, Run(policy, ops).history, u, password);
      }
      if policy.ReuseLimit(staff) == 0 {
        RecentAreLatest(policy, staff, Run(policy, ops).history, u);
      }
    }
  }

  lemma SpacingRespectedExactly(policy: Policy, ops: seq<Op>, u: UserId, now: Time)
    ensures !TooSoon(policy, Run(policy, ops).history, u, now) <==>
            RespectsSpacing(policy, SetTimes(policy, ops, u), now)
  {
    if policy.FrequencyRestricted() {
      EntriesAreDated(policy, ops, u);
      var times := SetTimes(policy, ops, u);
      if times != [] {
        DaysAtLeast(now - times[|times| - 1], policy.spacingDays.value);
      }
    }
  }

  /** What a reset must meet, told from the request and the passwords the user has held. */
  predicate Meets(policy: Policy, staff: bool, held: seq<string>, times: seq<Time>, op: Op)
    requires op.Reset?
  {
    && op.accepted && !op.weak
    && RespectsReuse(policy, staff, held, op.password) && RespectsSpacing(policy, times, op.checkedAt)
  }

  /**
    After any run, a reset leaves a user with the new password under the drawn salt exactly if it is accepted,
    not weak, respects the reuse policy of this kind of account, and comes late enough; a change is recorded
    exactly if some policy is set. Otherwise it changes nothing, and it never touches another account.
   */
  lemma ResetTakesExactly(policy: Policy, ops: seq<Op>, op: Op)
    requires op.Reset?
    ensures var s, t, u := Run(policy, ops), Run(policy, ops + [op]), op.user;
            if u in s.accounts &&
               Meets(policy, s.accounts[u].staff, Held(policy, ops, u), SetTimes(policy, ops, u), op) then
              var hash := Hash(policy.hasher, op.salt, op.password);
              && t.accounts == s.accounts[u := Account(s.accounts[u].staff, hash)]
              && t.history == s.history +
                 if SomePolicySet(policy) && hash != s.accounts[u].hash then [Entry(u, hash, op.stampedAt)] else []
            else t == s
  {
    HeldAfter(policy, ops, op, op.user);
    var s := Run(policy, ops);
    if op.user in s.accounts {
      ReuseRespectedExactly(policy, ops, op.user, s.accounts[op.user].staff, op.password);
      SpacingRespectedExactly(policy, ops, op.user, op.checkedAt);
      ResetStep(policy, s, op);
    }
  }

  lemma ResetStep(policy: Policy, s: State, op: Op)
    requires op.Reset? && op.user in s.accounts
    ensures var t, u, hash := Step(policy, s, op), op.user, Hash(policy.hasher, op.salt, op.password);
            if ResetAllowed(policy, s, op) && op.accepted then
              && t.accounts == s.accounts[u := Account(s.accounts[u].staff, hash)]
              && t.history == s.history +
                 if SomePolicySet(policy) && hash != s.accounts[u].hash then [Entry(u, hash, op.stampedAt)] else []
            else t == s
    ensures ResetAllowed(policy, s, op) <==>
            && !op.weak && ReuseOk(policy, s.accounts[op.user].staff, s.history, op.user, op.password)
            && !TooSoon(policy, s.history, op.user, op.checkedAt)
  {
    if Hash(policy.hasher, op.salt, op.password) == s.accounts[op.user].hash {
      assert s.accounts == s.accounts[op.user := s.accounts[op.user].(hash := s.accounts[op.user].hash)];
    }
  }

  /** A created account is not staff, has its password recorded if some policy is set, and is created once only. */
  lemma CreateTakesExactly(policy: Policy, ops: seq<Op>, op: Op)
    requires op.Create?
    ensures var s, t, u := Run(policy, ops), Run(policy, ops + [op]), op.user;
            if u in s.accounts then t == s
            else
              var hash := Hash(policy.hasher, op.salt, op.password);
              && t.accounts == s.accounts[u := Account(false, hash)]
              && t.history == s.history + if SomePolicySet(policy) then [Entry(u, hash, op.stampedAt)] else []
  {
    HeldAfter(policy, ops, op, op.user);
  }

  /** Promotion and demotion change the flag of an account that is there, and no password. */
  lemma SetStaffTakesExactly(policy: Policy, s: State, u: UserId, on: bool, now: Time)
    ensures Step(policy, s, SetStaff(u, on, now)) ==
            if u in s.accounts then State(s.accounts[u := Account(on, s.accounts[u].hash)], s.history) else s
  {
  }

  /** A reset breaks off exactly if it repeats a password of a staff user and the staff limit is absent. */
  lemma SettingMissedExactly(policy: Policy, ops: seq<Op>, op: Op)
    requires op.Reset? && op.user in Run(policy, ops).accounts
    ensures SettingMissed(policy, Run(policy, ops), op) <==>
            && Run(policy, ops).accounts[op.user].staff && policy.staffReuse == None
            && !RespectsReuse(policy, true, Held(policy, ops, op.user), op.password)
  {
    ReuseRespectedExactly(policy, ops, op.user, true, op.password);
  }

  predicate WindowsDistinct(held: seq<string>, n: nat) {
    forall i, j :: 0 <= i < j < |held| && j - i <= n ==> held[i] != held[j]
  }

  /** A known user's password changes only through a reset that passed both checks. */
  lemma ChangePassedChecks(policy: Policy, s: State, op: Op, u: UserId)
    requires CurrentHash(Step(policy, s, op), u) != CurrentHash(s, u) && u in s.accounts
    ensures op.Reset? && op.user == u && !TooSoon(policy, s.history, u, op.checkedAt)
    ensures ReuseOk(policy, s.accounts[u].staff, s.history, u, op.password)
  {
  }

  /** The limit in force for the user when a step set their password; new accounts are not staff. */
  function LimitFor(policy: Policy, s: State, u: UserId): nat {
    policy.ReuseLimit(u in s.accounts && s.accounts[u].staff)
  }

  /** For each password held, the limit that was in force when it was set. */
  function Limits(policy: Policy, ops: seq<Op>, u: UserId): seq<nat> {
    if ops == [] then []
    else
      var s := Run(policy, ops[..|ops| - 1]);
      Limits(policy, ops[..|ops| - 1], u) +
      (if HeldNext(s, Run(policy, ops), u) == [] then [] else [LimitFor(policy, s, u)])
  }

  /** Every password differs from as many before it as its own limit asks. */
  predicate EachFresh(held: seq<string>, limits: seq<nat>) {
    |held| == |limits| && forall i, j :: 0 <= i < j < |held| && j - i <= limits[j] ==> held[i] != held[j]
  }

  lemma EachFreshExtend(held: seq<string>, limits: seq<nat>, password: string, limit: nat)
    requires EachFresh(held, limits) && Fresh(held, limit, password)
    ensures EachFresh(held + [password], limits + [limit])
  {
  }

  lemma {:induction false} LimitsMatchHeld(policy: Policy, ops: seq<Op>, u: UserId)
    ensures |Limits(policy, ops, u)| == |Held(policy, ops, u)|
  {
    if ops != [] {
      LimitsMatchHeld(policy, ops[..|ops| - 1], u);
    }
  }

  /** A password set by a step differs from the user's latest ones, as many as the limit then in force. */
  lemma NewPasswordIsFresh(policy: Policy, ops: seq<Op>, op: Op, u: UserId)
    requires policy.hasher != Unlisted
    requires var s := Run(policy, ops); HeldNext(s, Step(policy, s, op), u) != []
    ensures var s := Run(policy, ops);
            Fresh(Held(policy, ops, u), LimitFor(policy, s, u), HeldNext(s, Step(policy, s, op), u)[0])
  {
    var s := Run(policy, ops);
    if LimitFor(policy, s, u) > 0 {
      if u in s.accounts {
        StepChangesTogether(policy, s, op, u);
        ChangePassedChecks(policy, s, op, u);
        ReuseCheckIsExact(policy, ops, u, s.accounts[u].staff, op.password);
      } else {
        HistoryIsPasswordsHeld(policy, ops, u);
      }
    }
  }

  /**
    Under a recognised hasher, over every run and whatever promotions and demotions it holds, every
    password differs from the previous `n`, for the limit `n` in force when it was set.
   */
  lemma {:induction false} NoReuseWithinLimitInForce(policy: Policy, ops: seq<Op>, u: UserId)
    requires policy.hasher != Unlisted
    ensures EachFresh(Held(policy, ops, u), Limits(policy, ops, u))
  {
    if ops != [] {
      var init, op := ops[..|ops| - 1], ops[|ops| - 1];
      NoReuseWithinLimitInForce(policy, init, u);
      var next := HeldNext(Run(policy, init), Run(policy, ops), u);
      if next != [] {
        NewPasswordIsFresh(policy, init, op, u);
        EachFreshExtend(Held(policy, init, u), Limits(policy, init, u), next[0],
                        LimitFor(policy, Run(policy, init), u));
      }
    }
  }

  /** If some account can have a limit, limits in force are kept on all runs exactly if the hasher is recognised. */
  lemma LimitInForceEnforcedExactly(policy: Policy)
    requires policy.ReuseLimit(false) > 0 || policy.ReuseLimit(true) > 0
    ensures (forall ops: seq<Op>, u: UserId :: TimesIncrease(ops) ==>
               EachFresh(Held(policy, ops, u), Limits(policy, ops, u)))
            <==> policy.hasher != Unlisted
  {
    if policy.hasher != Unlisted {
      forall ops: seq<Op>, u: UserId
        ensures EachFresh(Held(policy, ops, u), Limits(policy, ops, u))
      {
        NoReuseWithinLimitInForce(policy, ops, u);
      }
    } else {
      var ops := UnlistedHasherReuses(policy, policy.ReuseLimit(false) == 0, "secret");
      LimitsMatchHeld(policy, ops, 0);
    }
  }

  lemma {:induction false} EqualLimits(policy: Policy, ops: seq<Op>, u: UserId)
    requires policy.ReuseLimit(false) == policy.ReuseLimit(true)
    ensures forall i :: 0 <= i < |Limits(policy, ops, u)| ==> Limits(policy, ops, u)[i] == policy.ReuseLimit(false)
  {
    if ops != [] {
      EqualLimits(policy, ops[..|ops| - 1], u);
    }
  }

  /** The user's present limit holds of all the passwords they have held. */
  predicate PresentLimitHolds(policy: Policy, ops: seq<Op>, u: UserId) {
    WindowsDistinct(Held(policy, ops, u), LimitFor(policy, Run(policy, ops), u))
  }

  /**
    Any `n + 1` passwords in a row are distinct, for the user's present limit `n`: this holds on all runs
    exactly when there is no limit at all, or the hasher is recognised and promotion does not change the
    limit: otherwise a promotion or a demotion subjects old passwords to a limit they were not set under.
   */
  lemma PresentLimitEnforcedExactly(policy: Policy)
    ensures (forall ops: seq<Op>, u: UserId :: TimesIncrease(ops) ==> PresentLimitHolds(policy, ops, u))
            <==> || (policy.ReuseLimit(false) == 0 && policy.ReuseLimit(true) == 0)
                 || (policy.hasher != Unlisted && policy.ReuseLimit(false) == policy.ReuseLimit(true))
  {
    var a, b := policy.ReuseLimit(false), policy.ReuseLimit(true);
    if a != b {
      var ops := PromotionBreaksWindow(policy, a > b);
    } else if a > 0 && policy.hasher == Unlisted {
      var ops := UnlistedHasherReuses(policy, false, "secret");
    } else if a > 0 {
      forall ops: seq<Op>, u: UserId
        ensures PresentLimitHolds(policy, ops, u)
      {
        EqualLimits(policy, ops, u);
        NoReuseWithinLimitInForce(policy, ops, u);
      }
    }
  }

  // ---------------------------------------------------------------- runs that reuse

  /** A pause long enough for the spacing policy. */
  function Pause(policy: Policy): (d: int)
    ensures d >= DAY && (policy.spacingDays.Some? ==> Days(d) >= policy.spacingDays.value)
  {
    if policy.spacingDays.Some? && policy.spacingDays.value > 0 then DAY * policy.spacingDays.value else DAY
  }

  function Clock(policy: Policy, k: nat): int {
    if k == 0 then 0 else Clock(policy, k - 1) + Pause(policy)
  }

  /** The checks let all these passwords through, one after the other. */
  predicate Passable(policy: Policy, staff: bool, passwords: seq<string>) {
    policy.hasher.Unlisted? ||
    forall k :: 0 < k < |passwords| ==> Fresh(passwords[..k], policy.ReuseLimit(staff), passwords[k])
  }

  lemma PassablePrefix(policy: Policy, staff: bool, passwords: seq<string>)
    requires passwords != [] && Passable(policy, staff, passwords)
    ensures Passable(policy, staff, passwords[..|passwords| - 1])
    ensures |passwords| > 1 && !policy.hasher.Unlisted? ==>
              Fresh(passwords[..|passwords| - 1], policy.ReuseLimit(staff), passwords[|passwords| - 1])
  {
    forall k | 0 < k < |passwords| - 1
      ensures passwords[..|passwords| - 1][..k] == passwords[..k]
    {
    }
  }

  predicate AllStampedBefore(ops: seq<Op>, now: Time) {
    forall i :: 0 <= i < |ops| ==> ops[i].stampedAt < now
  }

  lemma TimesAppend(ops: seq<Op>, op: Op)
    requires TimesIncrease(ops) && AllStampedBefore(ops, op.stampedAt)
    requires op.Reset? ==> op.checkedAt <= op.stampedAt
    ensures TimesIncrease(ops + [op])
    ensures forall now :: op.stampedAt < now ==> AllStampedBefore(ops + [op], now)
  {
  }

  /** User 0 has got to the last of these passwords, set one pause after the one before. */
  ghost predicate ScriptState(policy: Policy, s: State, staff: bool, passwords: seq<string>)
    requires passwords != []
  {
    && 0 in s.accounts && s.accounts[0].staff == staff
    && s.accounts[0].hash == Hash(policy.hasher, |passwords| - 1, passwords[|passwords| - 1])
    && |Of(s.history, 0)| == |passwords| && Of(s.history, 0)[|passwords| - 1].timeSet == Clock(policy, |passwords| - 1)
  }

  ghost predicate LimitsAfterFirst(limits: seq<nat>, count: nat, limit: nat) {
    |limits| == count && forall i :: 0 < i < count ==> limits[i] == limit
  }

  ghost predicate HoldsJust(policy: Policy, staff: bool, ops: seq<Op>, passwords: seq<string>) {
    && passwords != [] && ScriptState(policy, Run(policy, ops), staff, passwords)
    && Held(policy, ops, 0) == passwords
    && LimitsAfterFirst(Limits(policy, ops, 0), |passwords|, policy.ReuseLimit(staff))
  }

  /** Under these operations user 0 holds just these passwords, all but the first under one limit. */
  ghost predicate Reaches(policy: Policy, staff: bool, ops: seq<Op>, passwords: seq<string>) {
    && HoldsJust(policy, staff, ops, passwords)
    && TimesIncrease(ops) && AllStampedBefore(ops, Clock(policy, |passwords|))
  }

  /** Any passwords the checks let through can be held one after the other. */
  lemma {:induction false} ScriptRuns(policy: Policy, staff: bool, passwords: seq<string>) returns (ops: seq<Op>)
    requires passwords != [] && policy.Recording() && policy.advancedSecurity && Passable(policy, staff, passwords)
    ensures Reaches(policy, staff, ops, passwords)
  {
    var earlier, password := passwords[..|passwords| - 1], passwords[|passwords| - 1];
    assert passwords == earlier + [password];
    if earlier == [] {
      ops := ScriptStart(policy, staff, passwords);
    } else {
      PassablePrefix(policy, staff, passwords);
      ops := ScriptRuns(policy, staff, earlier);
      ops := ScriptReset(policy, staff, ops, earlier, password);
    }
  }

  lemma ScriptReset(policy: Policy, staff: bool, ops: seq<Op>, passwords: seq<string>, password: string)
    returns (more: seq<Op>)
    requires policy.Recording() && policy.advancedSecurity && Reaches(policy, staff, ops, passwords)
    requires policy.hasher.Unlisted? || Fresh(passwords, policy.ReuseLimit(staff), password)
    ensures Reaches(policy, staff, more, passwords + [password])
  {
    var now := Clock(policy, |passwords|);
    var op := Reset(0, password, |passwords|, false, true, now, now);
    more := ops + [op];
    ScriptResetHolds(policy, staff, ops, passwords, op);
    TimesAppend(ops, op);
    assert Clock(policy, |passwords + [password]|) == now + Pause(policy);
  }

  lemma ScriptResetHolds(policy: Policy, staff: bool, ops: seq<Op>, passwords: seq<string>, op: Op)
    requires policy.Recording() && policy.advancedSecurity && HoldsJust(policy, staff, ops, passwords)
    requires op.Reset? && op.user == 0 && !op.weak && op.accepted && op.salt == |passwords|
    requires op.checkedAt == op.stampedAt == Clock(policy, |passwords|)
    requires policy.hasher.Unlisted? || Fresh(passwords, policy.ReuseLimit(staff), op.password)
    ensures HoldsJust(policy, staff, ops + [op], passwords + [op.password])
  {
    ScriptReuseOk(policy, staff, ops, passwords, op.password);
    ScriptResetAllowed(policy, staff, Run(policy, ops), passwords, op);
    ScriptOneMore(policy, Run(policy, ops), staff, passwords, op);
    HeldAfter(policy, ops, op, 0);
    LimitsAfter(policy, ops, op, 0);
    LimitsExtend(Limits(policy, ops, 0), |passwords|, policy.ReuseLimit(staff));
  }

  lemma LimitsExtend(limits: seq<nat>, count: nat, limit: nat)
    requires LimitsAfterFirst(limits, count, limit)
    ensures LimitsAfterFirst(limits + [limit], count + 1, limit)
  {
  }

  lemma ScriptOneMore(policy: Policy, s: State, staff: bool, passwords: seq<string>, op: Op)
    requires policy.Recording() && passwords != [] && ScriptState(policy, s, staff, passwords)
    requires op.Reset? && op.user == 0 && op.accepted
    requires op.salt == |passwords| && op.stampedAt == Clock(policy, |passwords|)
    requires ResetAllowed(policy, s, op)
    ensures ScriptState(policy, Step(policy, s, op), staff, passwords + [op.password])
    ensures HeldNext(s, Step(policy, s, op), 0) == [op.password]
    ensures LimitFor(policy, s, 0) == policy.ReuseLimit(staff)
  {
    StepChangesTogether(policy, s, op, 0);
    assert CurrentHash(Step(policy, s, op), 0) == Some(Hash(policy.hasher, op.salt, op.password));
  }

  lemma ScriptStart(policy: Policy, staff: bool, passwords: seq<string>) returns (ops: seq<Op>)
    requires policy.Recording() && |passwords| == 1
    ensures Reaches(policy, staff, ops, passwords)
  {
    var created := ScriptCreate(policy, passwords);
    var op := SetStaff(0, staff, 1);
    ops := created + [op];
    ScriptPromotes(policy, created, op, passwords);
    TimesAppend(created, op);
    FirstPause(policy, |passwords|);
  }

  lemma FirstPause(policy: Policy, k: nat)
    requires k == 1
    ensures Clock(policy, k) == Pause(policy)
  {
  }

  lemma ScriptPromotes(policy: Policy, created: seq<Op>, op: Op, passwords: seq<string>)
    requires |passwords| == 1 && ScriptState(policy, Run(policy, created), false, passwords)
    requires Held(policy, created, 0) == passwords && |Limits(policy, created, 0)| == 1
    requires op.SetStaff? && op.user == 0
    ensures HoldsJust(policy, op.on, created + [op], passwords)
  {
    HeldAfter(policy, created, op, 0);
    LimitsAfter(policy, created, op, 0);
    Promoted(policy, Run(policy, created), op, passwords);
    assert passwords + [] == passwords;
  }

  lemma ScriptCreate(policy: Policy, passwords: seq<string>) returns (ops: seq<Op>)
    requires policy.Recording() && |passwords| == 1
    ensures ScriptState(policy, Run(policy, ops), false, passwords) && Held(policy, ops, 0) == passwords
    ensures |Limits(policy, ops, 0)| == 1 && TimesIncrease(ops) && AllStampedBefore(ops, 1)
  {
    var op := Create(0, passwords[0], 0, 0);
    ops := [op];
    assert ops == [] + [op] && passwords == [op.password];
    HeldAfter(policy, [], op, 0);
    LimitsAfter(policy, [], op, 0);
    Created(policy, Run(policy, []), op);
  }

  lemma Created(policy: Policy, s: State, op: Op)
    requires policy.Recording() && s == State(map[], [])
    requires op.Create? && op.user == op.salt == op.stampedAt == 0
    ensures ScriptState(policy, Step(policy, s, op), false, [op.password])
    ensures HeldNext(s, Step(policy, s, op), 0) == [op.password]
  {
    StepChangesTogether(policy, s, op, 0);
  }

  lemma Promoted(policy: Policy, s: State, op: Op, passwords: seq<string>)
    requires passwords != [] && ScriptState(policy, s, false, passwords) && op.SetStaff? && op.user == 0
    ensures ScriptState(policy, Step(policy, s, op), op.on, passwords)
    ensures HeldNext(s, Step(policy, s, op), 0) == []
  {
  }

  lemma ScriptReuseOk(policy: Policy, staff: bool, ops: seq<Op>, passwords: seq<string>, password: string)
    requires policy.Recording() && policy.advancedSecurity && Held(policy, ops, 0) == passwords
    requires policy.hasher.Unlisted? || Fresh(passwords, policy.ReuseLimit(staff), password)
    ensures ReuseOk(policy, staff, Run(policy, ops).history, 0, password)
  {
    if policy.hasher.Unlisted? {
      HistoryIsPasswordsHeld(policy, ops, 0);
      UnlistedLetsThrough(policy, staff, Run(policy, ops).history, 0, password);
    } else {
      ReuseCheckIsExact(policy, ops, 0, staff, password);
    }
  }

  lemma ScriptResetAllowed(policy: Policy, staff: bool, s: State, passwords: seq<string>, op: Op)
    requires passwords != [] && ScriptState(policy, s, staff, passwords)
    requires op.Reset? && op.user == 0 && !op.weak && op.checkedAt == Clock(policy, |passwords|)
    requires ReuseOk(policy, staff, s.history, 0, op.password)
    ensures ResetAllowed(policy, s, op)
  {
    PauseIsEnough(policy, s.history, 0, Clock(policy, |passwords| - 1));
  }

  lemma UnlistedLetsThrough(policy: Policy, staff: bool, history: seq<Entry>, u: UserId, password: string)
    requires forall i :: 0 <= i < |Of(history, u)| ==> Of(history, u)[i].hash.algorithm == Unlisted
    ensures ReuseOk(policy, staff, history, u, password)
  {
    RecentAreLatest(policy, staff, history, u);
  }

  lemma PauseIsEnough(policy: Policy, history: seq<Entry>, u: UserId, last: Time)
    requires Of(history, u) != [] && Of(history, u)[|Of(history, u)| - 1].timeSet == last
    ensures !TooSoon(policy, history, u, last + Pause(policy))
  {
  }

  /** With an unrecognised hasher the same password can be set twice running, whatever the limit. */
  lemma UnlistedHasherReuses(policy: Policy, staff: bool, password: string) returns (ops: seq<Op>)
    requires policy.ReuseLimit(staff) > 0 && policy.hasher == Unlisted
    ensures TimesIncrease(ops) && Held(policy, ops, 0) == [password, password]
    ensures !PresentLimitHolds(policy, ops, 0)
    ensures !EachFresh(Held(policy, ops, 0), Limits(policy, ops, 0))
  {
    ops := ScriptRuns(policy, staff, [password, password]);
    TwiceIsReuse(Held(policy, ops, 0), Limits(policy, ops, 0), password, policy.ReuseLimit(staff));
  }

  lemma TwiceIsReuse(held: seq<string>, limits: seq<nat>, password: string, n: nat)
    requires held == [password, password] && |limits| == 2 && limits[1] == n > 0
    ensures !WindowsDistinct(held, n) && !EachFresh(held, limits)
  {
    assert held[0] == held[1];
  }

  /** `n + 1` different passwords, then the first again. */
  function RoundTrip(n: nat): seq<string> {
    seq(n + 1, k requires 0 <= k < n + 1 => Decimal.Print(k)) + [Decimal.Print(0)]
  }

  lemma RoundTripPassable(policy: Policy, staff: bool)
    ensures Passable(policy, staff, RoundTrip(policy.ReuseLimit(staff)))
  {
    var n := policy.ReuseLimit(staff);
    var passwords := RoundTrip(n);
    forall k | 0 < k < |passwords|
      ensures Fresh(passwords[..k], n, passwords[k])
    {
      forall i | 0 <= i < k && k - n <= i
        ensures passwords[..k][i] != passwords[k]
      {
        Decimal.PrintInjective(i, if k <= n then k else 0);
      }
    }
  }

  /**
    Where the limits differ, a user under the lower one may go round as many passwords as it asks and come
    back; the change of status then leaves two equal passwords within the other limit.
   */
  lemma PromotionBreaksWindow(policy: Policy, staff: bool) returns (ops: seq<Op>)
    requires policy.ReuseLimit(staff) < policy.ReuseLimit(!staff)
    ensures TimesIncrease(ops) && !PresentLimitHolds(policy, ops, 0)
  {
    var n := policy.ReuseLimit(staff);
    var passwords := RoundTrip(n);
    var op := SetStaff(0, !staff, Clock(policy, |passwords|));
    RoundTripPassable(policy, staff);
    var script := ScriptRuns(policy, staff, passwords);
    TimesAppend(script, op);
    HeldAfter(policy, script, op, 0);
    ops := script + [op];
    StatusChanges(policy, Run(policy, script), op);
    assert passwords + [] == passwords;
    RoundTripReuses(n, policy.ReuseLimit(!staff));
  }

  lemma StatusChanges(policy: Policy, s: State, op: Op)
    requires op.SetStaff? && op.user in s.accounts
    ensures HeldNext(s, Step(policy, s, op), op.user) == []
    ensures LimitFor(policy, Step(policy, s, op), op.user) == policy.ReuseLimit(op.on)
  {
  }

  lemma RoundTripReuses(n: nat, m: nat)
    requires n < m
    ensures !WindowsDistinct(RoundTrip(n), m)
  {
    assert RoundTrip(n)[0] == RoundTrip(n)[n + 1];
  }

  lemma HeldAfter(policy: Policy, ops: seq<Op>, op: Op, u: UserId)
    ensures Run(policy, ops + [op]) == Step(policy, Run(policy, ops), op)
    ensures Held(policy, ops + [op], u) ==
            Held(policy, ops, u) + HeldNext(Run(policy, ops), Run(policy, ops + [op]), u)
  {
    assert (ops + [op])[..|ops|] == ops;
  }

  lemma LimitsAfter(policy: Policy, ops: seq<Op>, op: Op, u: UserId)
    ensures Limits(policy, ops + [op], u) ==
            Limits(policy, ops, u) +
            (if HeldNext(Run(policy, ops), Step(policy, Run(policy, ops), op), u) == [] then []
             else [LimitFor(policy, Run(policy, ops), u)])
  {
    assert (ops + [op])[..|ops|] == ops;
  }

  /** Over every run, a user's recorded changes keep the configured distance. */
  lemma {:induction false} ChangesAreSpaced(policy: Policy, ops: seq<Op>, u: UserId)
    requires policy.FrequencyRestricted() && TimesIncrease(ops)
    ensures Spaced(policy, Of(Run(policy, ops).history, u))
  {
    if ops != [] {
      var init, op := ops[..|ops| - 1], ops[|ops| - 1];
      ChangesAreSpaced(policy, init, u);
      SpacedOneMore(policy, init, op, u);
    }
  }

  /** Consecutive entries are at least the configured number of whole days apart. */
  ghost predicate Spaced(policy: Policy, entries: seq<Entry>)
    requires policy.FrequencyRestricted()
  {
    forall i, j :: 0 <= i < j < |entries| && j == i + 1 ==>
      Days(entries[j].timeSet - entries[i].timeSet) >= policy.spacingDays.value
  }

  lemma SpacedOneMore(policy: Policy, ops: seq<Op>, op: Op, u: UserId)
    requires policy.FrequencyRestricted() && (op.Reset? ==> op.checkedAt <= op.stampedAt)
    requires Spaced(policy, Of(Run(policy, ops).history, u))
    ensures Spaced(policy, Of(Step(policy, Run(policy, ops), op).history, u))
  {
    var s := Run(policy, ops);
    var t := Step(policy, s, op);
    StepChangesTogether(policy, s, op, u);
    HistoryIsPasswordsHeld(policy, ops, u);
    if CurrentHash(t, u) != CurrentHash(s, u) {
      if u in s.accounts {
        ChangePassedChecks(policy, s, op, u);
        NotTooSoonMeansSpaced(policy, s.history, op, u);
      }
      SpacedAppend(policy, Of(s.history, u), Entry(u, t.accounts[u].hash, op.stampedAt));
    }
  }

  lemma SpacedAppend(policy: Policy, entries: seq<Entry>, entry: Entry)
    requires policy.FrequencyRestricted() && Spaced(policy, entries)
    requires entries != [] ==> Days(entry.timeSet - entries[|entries| - 1].timeSet) >= policy.spacingDays.value
    ensures Spaced(policy, entries + [entry])
  {
  }

  lemma NotTooSoonMeansSpaced(policy: Policy, history: seq<Entry>, op: Op, u: UserId)
    requires policy.FrequencyRestricted() && Of(history, u) != []
    requires op.Reset? && op.checkedAt <= op.stampedAt && !TooSoon(policy, history, u, op.checkedAt)
    ensures Days(op.stampedAt - Of(history, u)[|Of(history, u)| - 1].timeSet) >= policy.spacingDays.value
  {
    var last := Of(history, u)[|Of(history, u)| - 1].timeSet;
    DaysMonotone(op.checkedAt - last, op.stampedAt - last);
  }

  lemma DaysMonotone(a: int, b: int)
    requires a <= b
    ensures Days(a) <= Days(b)
  {
  }

  predicate TimesRise(entries: seq<Entry>) {
    forall i, j :: 0 <= i < j < |entries| ==> entries[i].timeSet < entries[j].timeSet
  }

  predicate AllBefore(entries: seq<Entry>, now: Time) {
    forall i :: 0 <= i < |entries| ==> entries[i].timeSet <= now
  }

  /** The order the queries ask for, `-time_set`, is the order `NewestFirst` gives. */
  lemma {:induction false} EntriesComeInTimeOrder(policy: Policy, ops: seq<Op>, u: UserId)
    requires TimesIncrease(ops)
    ensures TimesRise(Of(Run(policy, ops).history, u))
    ensures if ops == [] then Of(Run(policy, ops).history, u) == []
            else AllBefore(Of(Run(policy, ops).history, u), ops[|ops| - 1].stampedAt)
  {
    if ops != [] {
      var init, op := ops[..|ops| - 1], ops[|ops| - 1];
      EntriesComeInTimeOrder(policy, init, u);
      if policy.Recording() {
        StepChangesTogether(policy, Run(policy, init), op, u);
        EntriesOneMore(policy, Run(policy, init), Run(policy, ops), op, u);
      } else {
        assert Run(policy, ops).history == Run(policy, init).history;
      }
    }
  }

  lemma EntriesOneMore(policy: Policy, s: State, t: State, op: Op, u: UserId)
    requires ChangesTogether(policy, s, t, op, u) && TimesRise(Of(s.history, u))
    requires AllBefore(Of(s.history, u), op.stampedAt - 1)
    ensures TimesRise(Of(t.history, u)) && AllBefore(Of(t.history, u), op.stampedAt)
  {
  }
}
