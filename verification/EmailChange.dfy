/** Changing an account's email address (common/djangoapps/student/views.py). */
module EmailChange {
  import opened Wrappers

  type UserId = nat
  type Email = string
  type Key = nat

  /** A requested change and its activation key. */
  datatype Pending = Pending(newEmail: Email, key: Key)

  /** `oldEmails` is the list in a profile's metadata; a user without a profile has no entry. */
  datatype Db = Db(emails: map<UserId, Email>, pending: map<UserId, Pending>, oldEmails: map<UserId, seq<Email>>)

  predicate InUse(db: Db, e: Email) {
    exists u :: u in db.emails && db.emails[u] == e
  }

  predicate KeyTaken(db: Db, key: Key, u: UserId) {
    exists v :: v in db.pending && v != u && db.pending[v].key == key
  }

  /** The tables' constraints: an address belongs to one user, a key to one request, a request to a user. */
  ghost predicate Consistent(db: Db) {
    && (forall u, v :: u in db.emails && v in db.emails && db.emails[u] == db.emails[v] ==> u == v)
    && (forall u, v :: u in db.pending && v in db.pending && db.pending[u].key == db.pending[v].key ==> u == v)
    && db.pending.Keys <= db.emails.Keys && db.oldEmails.Keys <= db.emails.Keys
  }

  /** Whether the steps of a confirmation that may fail of themselves succeed: rendering, the writes, the two mails. */
  datatype Luck = Luck(renders: bool, writesProfile: bool, mailsOld: bool, writesUser: bool, deletesRequest: bool,
                       mailsNew: bool)
  {
    predicate Holds() {
      renders && writesProfile && mailsOld && writesUser && deletesRequest && mailsNew
    }
  }

  datatype Op =
    | CreateAccount(user: UserId, email: Email, profile: bool)
    | RequestChange(user: UserId, passwordOk: bool, newEmail: Email, valid: bool, key: Key, mailOk: bool)
    | Confirm(key: Key, luck: Luck)

  datatype Response =
    | Done | Refused | EmailTaken | KeyClash | MailFailed | NoSuchUser | InvalidKey | Raised

  /** The user whose request has the key. */
  ghost function Requester(db: Db, key: Key): Option<UserId> {
    if u :| u in db.pending && db.pending[u].key == key then Some(u) else None
  }

  ghost function Changed(db: Db, u: UserId): Db
    requires u in db.pending && u in db.emails && u in db.oldEmails
  {
    Db(db.emails[u := db.pending[u].newEmail], db.pending - {u}, db.oldEmails[u := db.oldEmails[u] + [db.emails[u]]])
  }

  /** Whether a confirmation takes: a known key, a free address, a profile to log in, and no fault. */
  ghost predicate Confirms(db: Db, op: Op) {
    && op.Confirm? && op.luck.Holds()
    && var u := Requester(db, op.key);
       u.Some? && u.value in db.oldEmails && u.value in db.emails && !InUse(db, db.pending[u.value].newEmail)
  }

  ghost function Step(db: Db, op: Op): Db {
    match op
    case CreateAccount(u, e, profile) =>
      if u in db.emails || InUse(db, e) then db
      else db.(emails := db.emails[u := e], oldEmails := if profile then db.oldEmails[u := []] else db.oldEmails)
    case RequestChange(u, passwordOk, e, valid, key, _) =>
      if u !in db.emails || !passwordOk || !valid || InUse(db, e) || KeyTaken(db, key, u) then db
      else db.(pending := db.pending[u := Pending(e, key)])
    case Confirm(key, _) =>
      if Confirms(db, op) then Changed(db, Requester(db, key).value) else db
  }

  class Accounts {
    /** what the connection sees */
    var db: Db
    /** what is committed */
    ghost var committed: Db

    ghost predicate Valid()
      reads this
    {
      Consistent(db) && committed == db
    }

    constructor ()
      ensures Valid() && db == Db(map[], map[], map[])
    {
      db := Db(map[], map[], map[]);
      committed := Db(map[], map[], map[]);
    }

    method Commit()
      modifies this
      ensures db == old(db) && committed == db
    {
      committed := db;
    }

    /** `saved` is the state the transaction began with. */
    method Rollback(saved: Db)
      requires saved == committed
      modifies this
      ensures db == committed == old(committed)
    {
      db := saved;
    }

    method Create(op: Op) returns (response: Response)
      requires Valid() && op.CreateAccount?
      modifies this
      ensures Valid() && db == Step(old(db), op)
      ensures response == if db == old(db) then EmailTaken else Done
    {
      StepKeepsConsistent(db, op);
      if op.user in db.emails || exists u :: u in db.emails && db.emails[u] == op.email {
        return EmailTaken;
      }
      db := db.(emails := db.emails[op.user := op.email]);
      if op.profile {
        db := db.(oldEmails := db.oldEmails[op.user := []]);
      }
      Commit();
      return Done;
    }

    method ChangeEmailRequest(op: Op) returns (response: Response)
      requires Valid() && op.RequestChange?
      modifies this
      ensures Valid() && db == Step(old(db), op)
      ensures response in {Done, MailFailed} ==>
                op.user in db.pending && db.pending[op.user] == Pending(op.newEmail, op.key)
      ensures response !in {Done, MailFailed} ==> db == old(db)
      ensures response == if op.user !in old(db).emails then NoSuchUser
                          else if !op.passwordOk || !op.valid then Refused
                          else if InUse(old(db), op.newEmail) then EmailTaken
                          else if KeyTaken(old(db), op.key, op.user) then KeyClash
                          else if op.mailOk then Done else MailFailed
    {
      StepKeepsConsistent(db, op);
      if op.user !in db.emails {
        return NoSuchUser;
      }
      if !op.passwordOk || !op.valid {
        return Refused;
      }
      if exists u :: u in db.emails && db.emails[u] == op.newEmail {
        return EmailTaken;
      }
      if exists v :: v in db.pending && v != op.user && db.pending[v].key == op.key {
        return KeyClash;
      }
      db := db.(pending := db.pending[op.user := Pending(op.newEmail, op.key)]);
      // the comparison with the user's own address that follows never succeeds: that address is in use
      assert op.newEmail != db.emails[op.user];
      Commit();
      return if op.mailOk then Done else MailFailed;
    }

    method ConfirmEmailChange(op: Op) returns (response: Response)
      requires Valid() && op.Confirm?
      modifies this
      ensures Valid() && db == Step(old(db), op)
      ensures response == Done <==> Confirms(old(db), op)
      ensures response == InvalidKey <==> Requester(old(db), op.key).None?
      ensures response == EmailTaken <==>
                Requester(old(db), op.key).Some? &&
                InUse(old(db), old(db).pending[Requester(old(db), op.key).value].newEmail)
    {
      StepKeepsConsistent(db, op);
      var saved := db;
      if u :| u in db.pending && db.pending[u].key == op.key {
        assert Requester(saved, op.key) == Some(u);
        var newEmail := db.pending[u].newEmail;
        if exists v :: v in db.emails && db.emails[v] == newEmail {
          Rollback(saved);
          return EmailTaken;
        }
        assert !InUse(saved, newEmail);
        if !op.luck.renders || u !in db.oldEmails {
          Rollback(saved);
          return Raised;
        }
        var log := db.oldEmails[u];
        log := log + [db.emails[u]];
        if !op.luck.writesProfile {
          Rollback(saved);
          return Raised;
        }
        db := db.(oldEmails := db.oldEmails[u := log]);
        if !op.luck.mailsOld {
          Rollback(saved);
          return MailFailed;
        }
        if !op.luck.writesUser {
          Rollback(saved);
          return Raised;
        }
        db := db.(emails := db.emails[u := newEmail]);
        if !op.luck.deletesRequest {
          Rollback(saved);
          return Raised;
        }
        db := db.(pending := db.pending - {u});
        if !op.luck.mailsNew {
          Rollback(saved);
          return MailFailed;
        }
        assert db == Changed(saved, u);
        Commit();
        return Done;
      }
      assert Requester(saved, op.key).None?;
      Rollback(saved);
      return InvalidKey;
    }
  }

  lemma StepKeepsConsistent(db: Db, op: Op)
    requires Consistent(db)
    ensures Consistent(Step(db, op))
  {
    match op {
      case CreateAccount(u, e, _) =>
        var emails := Step(db, op).emails;
        forall v, w | v in emails && w in emails && emails[v] == emails[w]
          ensures v == w
        {
          assert !InUse(db, e) ==> forall x :: x in db.emails ==> db.emails[x] != e;
        }
      case RequestChange(u, _, _, _, key, _) =>
        assert !KeyTaken(db, key, u) ==> forall v :: v in db.pending && v != u ==> db.pending[v].key != key;
      case Confirm(key, _) =>
        if Confirms(db, op) {
          var u := Requester(db, key).value;
          assert forall v :: v in db.emails ==> db.emails[v] != db.pending[u].newEmail;
        }
    }
  }

  ghost function Run(ops: seq<Op>): Db {
    if ops == [] then Db(map[], map[], map[]) else Step(Run(ops[..|ops| - 1]), ops[|ops| - 1])
  }

  /** Over every run no two accounts ever share an address, however many asked for it. */
  lemma {:induction false} AddressesStayDistinct(ops: seq<Op>)
    ensures Consistent(Run(ops))
  {
    if ops != [] {
      AddressesStayDistinct(ops[..|ops| - 1]);
      StepKeepsConsistent(Run(ops[..|ops| - 1]), ops[|ops| - 1]);
    }
  }

  function Current(db: Db, u: UserId): seq<Email> {
    if u in db.emails then [db.emails[u]] else []
  }

  /** Every address the user has held, oldest first, told from the accounts alone. */
  ghost function Held(ops: seq<Op>, u: UserId): seq<Email> {
    if ops == [] then []
    else
      var before, after := Current(Run(ops[..|ops| - 1]), u), Current(Run(ops), u);
      Held(ops[..|ops| - 1], u) + (if after == before then [] else after)
  }

  /** Over every run, the logged addresses followed by the present one are exactly the addresses held. */
  lemma {:induction false} LogIsWholeHistory(ops: seq<Op>, u: UserId)
    requires u in Run(ops).oldEmails
    ensures Run(ops).oldEmails[u] + Current(Run(ops), u) == Held(ops, u)
  {
    AddressesStayDistinct(ops);
    var init, op := ops[..|ops| - 1], ops[|ops| - 1];
    AddressesStayDistinct(init);
    var s, t := Run(init), Run(ops);
    if u in s.oldEmails {
      LogIsWholeHistory(init, u);
      StepLogs(s, op, u);
    } else {
      assert op.CreateAccount? && op.user == u && u !in s.emails;
      HeldByNobody(init, u);
    }
  }

  /** One step either leaves a user's address and log alone, or logs the old address and sets the requested one. */
  lemma StepLogs(s: Db, op: Op, u: UserId)
    requires Consistent(s) && u in s.oldEmails
    ensures var t := Step(s, op);
            && u in t.oldEmails && u in t.emails
            && if t.emails[u] == s.emails[u] then t.oldEmails[u] == s.oldEmails[u]
               else t.oldEmails[u] == s.oldEmails[u] + [s.emails[u]]
                    && u in s.pending && t.emails[u] == s.pending[u].newEmail && u !in t.pending
  {
    if Confirms(s, op) && Requester(s, op.key) == Some(u) {
      assert InUse(s, s.emails[u]);
    }
  }

  lemma {:induction false} HeldByNobody(ops: seq<Op>, u: UserId)
    requires u !in Run(ops).emails
    ensures Held(ops, u) == []
  {
    if ops != [] {
      assert u !in Run(ops[..|ops| - 1]).emails;
      HeldByNobody(ops[..|ops| - 1], u);
    }
  }

  /**
    A request is stored exactly if it comes from an account with the right password, the new address is valid
    and nobody's, and the drawn key is new to all others; nothing else changes.
   */
  lemma RequestStoredExactly(db: Db, op: Op)
    requires op.RequestChange?
    ensures Step(db, op) ==
            if && op.user in db.emails && op.passwordOk && op.valid
               && (forall u :: u in db.emails ==> db.emails[u] != op.newEmail)
               && (forall v :: v in db.pending && v != op.user ==> db.pending[v].key != op.key)
            then Db(db.emails, db.pending[op.user := Pending(op.newEmail, op.key)], db.oldEmails)
            else db
  {
  }

  /** An account is created exactly if it and its address are new. */
  lemma CreatedExactly(db: Db, op: Op)
    requires op.CreateAccount?
    ensures Step(db, op) ==
            if op.user !in db.emails && forall u :: u in db.emails ==> db.emails[u] != op.email
            then Db(db.emails[op.user := op.email], db.pending,
                    if op.profile then db.oldEmails[op.user := []] else db.oldEmails)
            else db
  {
  }

  /**
    A user's request is confirmed exactly if they have a profile, the address is still nobody's, and each of
    the six steps that may fail succeeds; then all three tables change, and otherwise none does.
   */
  lemma ConfirmedExactly(db: Db, u: UserId, luck: Luck)
    requires Consistent(db) && u in db.pending
    ensures var request := db.pending[u];
            Step(db, Confirm(request.key, luck)) ==
            if && luck.renders && luck.writesProfile && luck.mailsOld
               && luck.writesUser && luck.deletesRequest && luck.mailsNew
               && u in db.oldEmails && forall v :: v in db.emails ==> db.emails[v] != request.newEmail
            then Db(db.emails[u := request.newEmail], db.pending - {u},
                    db.oldEmails[u := db.oldEmails[u] + [db.emails[u]]])
            else db
  {
    assert Requester(db, db.pending[u].key) == Some(u);
  }

  /** A key that is nobody's confirms nothing. */
  lemma UnknownKeyConfirmsNothing(db: Db, op: Op)
    requires op.Confirm? && forall u :: u in db.pending ==> db.pending[u].key != op.key
    ensures Step(db, op) == db
  {
  }

  /** A confirmation of the user's own request, which alone can change their address. */
  ghost predicate ConfirmsFor(db: Db, op: Op, u: UserId) {
    op.Confirm? && Requester(db, op.key) == Some(u)
  }

  /** A confirmation of somebody's request for the address. */
  ghost predicate Claims(db: Db, op: Op, e: Email) {
    op.Confirm? && Requester(db, op.key).Some? && Requester(db, op.key).value in db.pending &&
    db.pending[Requester(db, op.key).value].newEmail == e
  }

  ghost predicate Holder(db: Db, u: UserId, e: Email) {
    u in db.emails && db.emails[u] == e
  }

  lemma OthersLeaveAddress(db: Db, op: Op, u: UserId, e: Email)
    requires Holder(db, u, e) && !ConfirmsFor(db, op, u)
    ensures Holder(Step(db, op), u, e) && (Claims(db, op, e) ==> Step(db, op) == db)
  {
    assert InUse(db, e);
  }

  /** From step `n` on, the user confirms no request of their own. */
  ghost predicate StaysPut(ops: seq<Op>, n: nat, u: UserId)
    requires n <= |ops|
  {
    |ops| == n ||
    var init := ops[..|ops| - 1];
    StaysPut(init, n, u) && !ConfirmsFor(Run(init), ops[|ops| - 1], u)
  }

  lemma {:induction false} StaysPutBefore(ops: seq<Op>, n: nat, u: UserId, k: nat)
    requires n <= k < |ops| && StaysPut(ops, n, u)
    ensures StaysPut(ops[..k], n, u) && !ConfirmsFor(Run(ops[..k]), ops[k], u)
  {
    var init := ops[..|ops| - 1];
    if k < |init| {
      StaysPutBefore(init, n, u, k);
      assert init[..k] == ops[..k];
    }
  }

  lemma {:induction false} HolderKeepsAddress(ops: seq<Op>, n: nat, u: UserId, e: Email)
    requires n <= |ops| && Holder(Run(ops[..n]), u, e) && StaysPut(ops, n, u)
    ensures Holder(Run(ops), u, e)
  {
    if n == |ops| {
      assert ops[..n] == ops;
    } else {
      var k := |ops| - 1;
      assert ops[..k][..n] == ops[..n];
      StaysPutBefore(ops, n, u, k);
      HolderKeepsAddress(ops[..k], n, u, e);
      OthersLeaveAddress(Run(ops[..k]), ops[k], u, e);
    }
  }

  ghost predicate OnlyHolds(db: Db, u: UserId, e: Email) {
    u in db.emails && forall v :: v in db.emails ==> (db.emails[v] == e <==> v == u)
  }

  lemma OnlyHolder(ops: seq<Op>, n: nat, u: UserId, e: Email)
    requires n <= |ops| && Holder(Run(ops[..n]), u, e) && StaysPut(ops, n, u)
    ensures OnlyHolds(Run(ops), u, e)
  {
    HolderKeepsAddress(ops, n, u, e);
    AddressesStayDistinct(ops);
  }

  lemma ClaimRefused(ops: seq<Op>, n: nat, u: UserId, e: Email, i: nat)
    requires n <= i < |ops| && Holder(Run(ops[..n]), u, e) && StaysPut(ops, n, u)
    ensures Claims(Run(ops[..i]), ops[i], e) ==> Step(Run(ops[..i]), ops[i]) == Run(ops[..i])
  {
    assert ops[..i][..n] == ops[..n];
    StaysPutBefore(ops, n, u, i);
    HolderKeepsAddress(ops[..i], n, u, e);
    OthersLeaveAddress(Run(ops[..i]), ops[i], u, e);
  }

  /**
    Of several who ask for one address the first to confirm gets it: from then on, over every run in which
    they do not themselves confirm another, they keep it, nobody else has it, and every other
    confirmation of a request for it changes nothing.
   */
  lemma FirstClaimHolds(ops: seq<Op>, n: nat, u: UserId, e: Email)
    requires n <= |ops| && Holder(Run(ops[..n]), u, e) && StaysPut(ops, n, u)
    ensures OnlyHolds(Run(ops), u, e)
    ensures forall i :: n <= i < |ops| && Claims(Run(ops[..i]), ops[i], e) ==>
              Step(Run(ops[..i]), ops[i]) == Run(ops[..i])
  {
    OnlyHolder(ops, n, u, e);
    forall i | n <= i < |ops| && Claims(Run(ops[..i]), ops[i], e)
      ensures Step(Run(ops[..i]), ops[i]) == Run(ops[..i])
    {
      ClaimRefused(ops, n, u, e, i);
    }
  }

  /** A link works once: once a confirmation has taken, its key is unknown. */
  lemma LinkWorksOnce(db: Db, op: Op)
    requires Consistent(db) && Confirms(db, op)
    ensures Requester(Step(db, op), op.key).None? && Step(Step(db, op), op) == Step(db, op)
  {
    var u := Requester(db, op.key).value;
    var t := Step(db, op);
    forall v | v in t.pending
      ensures t.pending[v].key != op.key
    {
      assert v != u && db.pending[u].key == op.key;
    }
  }
}
