/** Seeding a course's forum roles (common/djangoapps/django_comment_common). */
module ForumRoles {
  import opened Wrappers

  type CourseId = nat

  datatype Permission =
    | Vote | UpdateThread | FollowThread | UnfollowThread | UpdateComment | CreateSubComment | Unvote | CreateThread
    | FollowCommentable | UnfollowCommentable | CreateComment
    | EditContent | DeleteThread | OpenCloseThread | EndorseComment | DeleteComment | SeeAllCohorts
    | ManageModerator
    | Other(name: string)

  datatype Name = Administrator | Moderator | CommunityTA | Student | OtherRole(name: string)

  type Key = (CourseId, Name)

  /** The roles and the permissions each has. */
  type Roles = map<Key, set<Permission>>

  const STUDENT_PERMISSIONS := [
    Vote, UpdateThread, FollowThread, UnfollowThread, UpdateComment, CreateSubComment, Unvote, CreateThread,
    FollowCommentable, UnfollowCommentable, CreateComment
  ]
  const MODERATOR_PERMISSIONS :=
    [EditContent, DeleteThread, OpenCloseThread, EndorseComment, DeleteComment, SeeAllCohorts]
  const ADMINISTRATOR_PERMISSIONS := [ManageModerator]

  /** Permissions whose name starts with "edit", "update" or "create". */
  predicate IsPosting(p: Permission) {
    match p
    case Other(name) => "edit" <= name || "update" <= name || "create" <= name
    case _ => p in {UpdateThread, UpdateComment, CreateSubComment, CreateThread, CreateComment, EditContent}
  }

  /** A permission's name in the database. */
  function TextOf(p: Permission): string {
    match p
    case Vote => "vote"
    case UpdateThread => "update_thread"
    case FollowThread => "follow_thread"
    case UnfollowThread => "unfollow_thread"
    case UpdateComment => "update_comment"
    case CreateSubComment => "create_sub_comment"
    case Unvote => "unvote"
    case CreateThread => "create_thread"
    case FollowCommentable => "follow_commentable"
    case UnfollowCommentable => "unfollow_commentable"
    case CreateComment => "create_comment"
    case EditContent => "edit_content"
    case DeleteThread => "delete_thread"
    case OpenCloseThread => "openclose_thread"
    case EndorseComment => "endorse_comment"
    case DeleteComment => "delete_comment"
    case SeeAllCohorts => "see_all_cohorts"
    case ManageModerator => "manage_moderator"
    case Other(name) => name
  }

  lemma NotPosting(text: string)
    requires |text| > 1 && (text[0] !in {'e', 'u', 'c'} || (text[0] != 'c' && text[1] == 'n'))
    ensures !("edit" <= text) && !("update" <= text) && !("create" <= text)
  {
    assert "edit"[0] == 'e' && "edit"[1] == 'd' && "update"[0] == 'u' && "update"[1] == 'p' && "create"[0] == 'c';
  }

  /** The posting permissions are those whose names start as the code asks. */
  lemma PostingByName(p: Permission)
    ensures IsPosting(p) <==> "edit" <= TextOf(p) || "update" <= TextOf(p) || "create" <= TextOf(p)
  {
    if !p.Other? && !IsPosting(p) {
      NotPosting(TextOf(p));
    } else if !p.Other? {
      PostingStarts(p);
    }
  }

  lemma PostingStarts(p: Permission)
    requires p in {UpdateThread, UpdateComment, CreateSubComment, CreateThread, CreateComment, EditContent}
    ensures "edit" <= TextOf(p) || "update" <= TextOf(p) || "create" <= TextOf(p)
  {
  }

  function Elements(ps: seq<Permission>): set<Permission> {
    set p | p in ps
  }

  function Had(roles: Roles, key: Key): set<Permission> {
    if key in roles then roles[key] else {}
  }

  /** The permissions seeded for students, moderators and administrators. */
  datatype Grants = Grants(student: set<Permission>, moderator: set<Permission>, administrator: set<Permission>)

  const GRANTS :=
    Grants(Elements(STUDENT_PERMISSIONS), Elements(MODERATOR_PERMISSIONS), Elements(ADMINISTRATOR_PERMISSIONS))

  function StudentSeed(roles: Roles, c: CourseId, g: Grants): set<Permission> {
    Had(roles, (c, Student)) + g.student
  }

  function ModeratorSeed(roles: Roles, c: CourseId, g: Grants): set<Permission> {
    Had(roles, (c, Moderator)) + g.moderator + StudentSeed(roles, c, g)
  }

  /** The roles after seeding, whatever they had before. */
  function SeededWith(roles: Roles, c: CourseId, g: Grants): Roles {
    roles[(c, Student) := StudentSeed(roles, c, g)]
         [(c, Moderator) := ModeratorSeed(roles, c, g)]
         [(c, CommunityTA) := Had(roles, (c, CommunityTA)) + ModeratorSeed(roles, c, g)]
         [(c, Administrator) := Had(roles, (c, Administrator)) + g.administrator + ModeratorSeed(roles, c, g)]
  }

  function Seeded(roles: Roles, c: CourseId): Roles {
    SeededWith(roles, c, GRANTS)
  }

  /** A course as the modulestore finds it: whether posting is allowed, or nothing. */
  type Course = Option<bool>

  /** `has_permission` of an existing role in an existing course */
  predicate Allows(roles: Roles, key: Key, postingAllowed: bool, p: Permission)
    requires key in roles
  {
    !(key.1 == Student && IsPosting(p) && !postingAllowed) && p in roles[key]
  }

  datatype Answer = Yes | No | CourseMissing

  class RoleTable {
    var roles: Roles

    constructor ()
      ensures roles == map[]
    {
      roles := map[];
    }

    /** `_save_forum_role`: the row if there is one, else a new one. */
    method SaveForumRole(c: CourseId, name: Name) returns (key: Key)
      modifies this
      ensures key == (c, name) && roles == Granted(old(roles), key, {}) && key in roles
    {
      key := (c, name);
      if key !in roles {
        roles := roles[key := {}];
      }
      GrantNothing(old(roles), key);
    }

    method AddPermissions(key: Key, ps: seq<Permission>)
      requires key in roles
      modifies this
      ensures roles == Granted(old(roles), key, Elements(ps)) && key in roles
    {
      GrantNothing(roles, key);
      assert Elements(ps[..0]) == {};
      for i := 0 to |ps|
        invariant key in roles && roles == Granted(old(roles), key, Elements(ps[..i]))
      {
        GrantTwice(old(roles), key, Elements(ps[..i]), {ps[i]});
        roles := roles[key := roles[key] + {ps[i]}];
        assert Elements(ps[..i + 1]) == Elements(ps[..i]) + {ps[i]};
      }
      assert ps[..|ps|] == ps;
    }

    method InheritPermissions(key: Key, from: Key)
      requires key in roles && from in roles
      modifies this
      ensures roles == Granted(old(roles), key, old(roles)[from]) && key in roles
    {
      var all := roles[from];
      var left := all;
      GrantNothing(roles, key);
      assert all - left == {};
      while left != {}
        invariant key in roles && left <= all && roles == Granted(old(roles), key, all - left)
      {
        var p :| p in left;
        GrantTwice(old(roles), key, all - left, {p});
        assert all - (left - {p}) == (all - left) + {p};
        roles := roles[key := roles[key] + {p}];
        left := left - {p};
      }
      assert all - {} == all;
    }

    method SeedPermissionsRoles(c: CourseId)
      modifies this
      ensures roles == Seeded(old(roles), c)
    {
      var administrator := SaveForumRole(c, Administrator);
      var moderator := SaveForumRole(c, Moderator);
      var communityTA := SaveForumRole(c, CommunityTA);
      var student := SaveForumRole(c, Student);
      assert roles == AllSaved(old(roles), c);
      AddPermissions(student, STUDENT_PERMISSIONS);
      AddPermissions(moderator, MODERATOR_PERMISSIONS);
      AddPermissions(administrator, ADMINISTRATOR_PERMISSIONS);
      assert roles == AllGiven(AllSaved(old(roles), c), c, GRANTS);
      InheritPermissions(moderator, student);
      InheritPermissions(communityTA, moderator);
      InheritPermissions(administrator, moderator);
      assert roles == AllInherited(AllGiven(AllSaved(old(roles), c), c, GRANTS), c);
      StepsSeed(old(roles), c, GRANTS);
    }

    method HasPermissions(key: Key, course: Course, ps: seq<Permission>) returns (answer: Answer)
      requires key in roles && ps != []
      ensures answer == if course.None? then CourseMissing
                        else if forall p :: p in ps ==> Allows(roles, key, course.value, p) then Yes else No
    {
      for i := 0 to |ps|
        invariant i > 0 ==> course.Some?
        invariant course.Some? ==> forall j :: 0 <= j < i ==> Allows(roles, key, course.value, ps[j])
      {
        if course.None? {
          return CourseMissing;
        }
        if !Allows(roles, key, course.value, ps[i]) {
          return No;
        }
      }
      return Yes;
    }

    method ArePermissionsRolesSeeded(c: CourseId, course: Course) returns (answer: Answer)
      ensures answer == SeededAnswer(roles, c, course)
    {
      if (c, Administrator) !in roles || (c, Moderator) !in roles || (c, Student) !in roles {
        return No;
      }
      answer := HasPermissions((c, Student), course, STUDENT_PERMISSIONS);
      if answer != Yes {
        return;
      }
      answer := HasPermissions((c, Moderator), course, MODERATOR_PERMISSIONS + STUDENT_PERMISSIONS);
      if answer != Yes {
        return;
      }
      answer := HasPermissions((c, Administrator), course,
                               ADMINISTRATOR_PERMISSIONS + MODERATOR_PERMISSIONS + STUDENT_PERMISSIONS);
    }
  }

  ghost predicate AllowsAll(roles: Roles, key: Key, postingAllowed: bool, ps: seq<Permission>)
    requires key in roles
  {
    forall p :: p in ps ==> Allows(roles, key, postingAllowed, p)
  }

  ghost function AnswerWith(roles: Roles, c: CourseId, course: Course, student: seq<Permission>,
                            moderator: seq<Permission>, administrator: seq<Permission>): Answer {
    if (c, Administrator) !in roles || (c, Moderator) !in roles || (c, Student) !in roles then No
    else if course.None? then CourseMissing
    else if && AllowsAll(roles, (c, Student), course.value, student)
            && AllowsAll(roles, (c, Moderator), course.value, moderator + student)
            && AllowsAll(roles, (c, Administrator), course.value, administrator + moderator + student) then Yes
    else No
  }

  /** The answer of the seeded check. */
  ghost function SeededAnswer(roles: Roles, c: CourseId, course: Course): Answer {
    AnswerWith(roles, c, course, STUDENT_PERMISSIONS, MODERATOR_PERMISSIONS, ADMINISTRATOR_PERMISSIONS)
  }

  function Granted(roles: Roles, key: Key, ps: set<Permission>): Roles {
    roles[key := Had(roles, key) + ps]
  }

  lemma GrantNothing(roles: Roles, key: Key)
    ensures Granted(roles, key, {}) == roles[key := Had(roles, key)]
    ensures key in roles ==> Granted(roles, key, {}) == roles
  {
    assert Had(roles, key) + {} == Had(roles, key);
  }

  lemma GrantTwice(roles: Roles, key: Key, a: set<Permission>, b: set<Permission>)
    ensures Granted(Granted(roles, key, a), key, b) == Granted(roles, key, a + b)
  {
    assert (Had(roles, key) + a) + b == Had(roles, key) + (a + b);
  }

  function AllSaved(roles: Roles, c: CourseId): Roles {
    var staff := Granted(Granted(roles, (c, Administrator), {}), (c, Moderator), {});
    Granted(Granted(staff, (c, CommunityTA), {}), (c, Student), {})
  }

  function AllGiven(roles: Roles, c: CourseId, g: Grants): Roles {
    var students := Granted(roles, (c, Student), g.student);
    var moderators := Granted(students, (c, Moderator), g.moderator);
    Granted(moderators, (c, Administrator), g.administrator)
  }

  function AllInherited(roles: Roles, c: CourseId): Roles {
    var moderators := Granted(roles, (c, Moderator), Had(roles, (c, Student)));
    var assistants := Granted(moderators, (c, CommunityTA), Had(moderators, (c, Moderator)));
    Granted(assistants, (c, Administrator), Had(assistants, (c, Moderator)))
  }

  /** Saving the four roles gives nobody a permission. */
  lemma SavingGrantsNothing(roles: Roles, c: CourseId, key: Key)
    ensures Had(AllSaved(roles, c), key) == Had(roles, key)
    ensures key in AllSaved(roles, c) <==>
            key in roles || key in {(c, Administrator), (c, Moderator), (c, CommunityTA), (c, Student)}
  {
  }

  lemma GivingIsDirect(roles: Roles, c: CourseId, g: Grants, key: Key)
    ensures Had(AllGiven(roles, c, g), key) ==
            Had(roles, key) + (if key == (c, Student) then g.student else if key == (c, Moderator) then g.moderator
                               else if key == (c, Administrator) then g.administrator else {})
    ensures (c, Student) in roles && (c, Moderator) in roles && (c, Administrator) in roles ==>
              AllGiven(roles, c, g).Keys == roles.Keys
  {
  }

  lemma InheritingIsDirect(roles: Roles, c: CourseId, key: Key)
    ensures var moderators := Had(roles, (c, Moderator)) + Had(roles, (c, Student));
            Had(AllInherited(roles, c), key) ==
            if key == (c, Moderator) then moderators
            else if key == (c, CommunityTA) || key == (c, Administrator) then Had(roles, key) + moderators
            else Had(roles, key)
    ensures (c, Moderator) in roles && (c, CommunityTA) in roles && (c, Administrator) in roles ==>
              AllInherited(roles, c).Keys == roles.Keys
  {
  }

  /** The ten steps of seeding, one role at a time, amount to the closed form. */
  lemma StepsSeed(roles: Roles, c: CourseId, g: Grants)
    ensures AllInherited(AllGiven(AllSaved(roles, c), c, g), c) == SeededWith(roles, c, g)
  {
    var saved := AllSaved(roles, c);
    var given := AllGiven(saved, c, g);
    var all, seeded := AllInherited(given, c), SeededWith(roles, c, g);
    forall key: Key
      ensures key in all <==> key in seeded
      ensures Had(all, key) == Had(seeded, key)
    {
      SavingGrantsNothing(roles, c, key);
      GivingIsDirect(saved, c, g, key);
      InheritingIsDirect(given, c, key);
      StepsSeedOthers(roles, c, g);
    }
    SameRoles(all, seeded);
  }

  lemma SameRoles(a: Roles, b: Roles)
    requires forall key: Key :: (key in a <==> key in b) && Had(a, key) == Had(b, key)
    ensures a == b
  {
    assert a.Keys == b.Keys;
    forall key | key in a
      ensures a[key] == b[key]
    {
      assert Had(a, key) == Had(b, key);
    }
  }

  /** What moderators inherit from is what students and moderators were given. */
  lemma StepsSeedOthers(roles: Roles, c: CourseId, g: Grants)
    ensures var given := AllGiven(AllSaved(roles, c), c, g);
            Had(given, (c, Moderator)) + Had(given, (c, Student)) == ModeratorSeed(roles, c, g)
  {
    SavingGrantsNothing(roles, c, (c, Moderator));
    SavingGrantsNothing(roles, c, (c, Student));
    GivingIsDirect(AllSaved(roles, c), c, g, (c, Moderator));
    GivingIsDirect(AllSaved(roles, c), c, g, (c, Student));
  }

  /** The permission came with the role, or is one the list gives it. */
  predicate HadOrListed(roles: Roles, key: Key, listed: seq<Permission>, p: Permission) {
    (key in roles && p in roles[key]) || p in listed
  }

  /**
    Who may do what after seeding: a role keeps what it had; students get their list, moderators theirs and
    all that students end with, community TAs all that moderators end with, and administrators theirs and
    that too. No other role, and no other course, is touched.
   */
  lemma SeededPermissionsExactly(roles: Roles, c: CourseId, key: Key, p: Permission)
    ensures var students := HadOrListed(roles, (c, Student), STUDENT_PERMISSIONS, p);
            var moderators := students || HadOrListed(roles, (c, Moderator), MODERATOR_PERMISSIONS, p);
            p in Had(Seeded(roles, c), key) <==>
            if key == (c, Student) then students
            else if key == (c, Moderator) then moderators
            else if key == (c, CommunityTA) then moderators || HadOrListed(roles, key, [], p)
            else if key == (c, Administrator) then moderators || HadOrListed(roles, key, ADMINISTRATOR_PERMISSIONS, p)
            else key in roles && p in roles[key]
    ensures key in Seeded(roles, c) <==>
            key in roles || (key.0 == c && key.1 in {Administrator, Moderator, CommunityTA, Student})
  {
    ListedExactly(roles, c, key, p, STUDENT_PERMISSIONS, MODERATOR_PERMISSIONS, ADMINISTRATOR_PERMISSIONS);
  }

  lemma ListedExactly(roles: Roles, c: CourseId, key: Key, p: Permission, student: seq<Permission>,
                      moderator: seq<Permission>, administrator: seq<Permission>)
    ensures var seeded := SeededWith(roles, c, Grants(Elements(student), Elements(moderator), Elements(administrator)));
            var students := HadOrListed(roles, (c, Student), student, p);
            var moderators := students || HadOrListed(roles, (c, Moderator), moderator, p);
            && (p in Had(seeded, key) <==>
                if key == (c, Student) then students
                else if key == (c, Moderator) then moderators
                else if key == (c, CommunityTA) then moderators || HadOrListed(roles, key, [], p)
                else if key == (c, Administrator) then moderators || HadOrListed(roles, key, administrator, p)
                else key in roles && p in roles[key])
            && (key in seeded <==>
                key in roles || (key.0 == c && key.1 in {Administrator, Moderator, CommunityTA, Student}))
  {
  }

  /** After seeding, from whatever state, the check says yes exactly when the course exists and allows posting. */
  lemma SeedingSatisfiesCheckExactly(roles: Roles, c: CourseId, course: Course)
    ensures SeededAnswer(Seeded(roles, c), c, course) == Yes <==> course == Some(true)
  {
    SeededAllowsExactly(roles, c, course, STUDENT_PERMISSIONS, MODERATOR_PERMISSIONS, ADMINISTRATOR_PERMISSIONS,
                        UpdateThread);
  }

  lemma SeededAllowsExactly(roles: Roles, c: CourseId, course: Course, student: seq<Permission>,
                            moderator: seq<Permission>, administrator: seq<Permission>, posting: Permission)
    requires posting in student && IsPosting(posting)
    ensures var g := Grants(Elements(student), Elements(moderator), Elements(administrator));
            var s := SeededWith(roles, c, g);
            AnswerWith(s, c, course, student, moderator, administrator) == Yes <==> course == Some(true)
  {
    if course == Some(false) {
      var g := Grants(Elements(student), Elements(moderator), Elements(administrator));
      assert !Allows(SeededWith(roles, c, g), (c, Student), false, posting);
    }
  }

  /** Each has its own list and all lists before it. */
  ghost predicate HasLists(roles: Roles, c: CourseId, student: seq<Permission>, moderator: seq<Permission>,
                           administrator: seq<Permission>)
    requires (c, Student) in roles && (c, Moderator) in roles && (c, Administrator) in roles
  {
    && (forall p :: p in student ==>
          p in roles[(c, Student)] && p in roles[(c, Moderator)] && p in roles[(c, Administrator)])
    && (forall p :: p in moderator ==> p in roles[(c, Moderator)] && p in roles[(c, Administrator)])
    && (forall p :: p in administrator ==> p in roles[(c, Administrator)])
  }

  /**
    In any state of the roles, seeded or not: the check misses the course only if the three roles are there,
    and says yes exactly if besides the course allows posting and each role has the lists asked of it.
   */
  lemma CheckExactly(roles: Roles, c: CourseId, course: Course)
    ensures var found := (c, Student) in roles && (c, Moderator) in roles && (c, Administrator) in roles;
            && (SeededAnswer(roles, c, course) == CourseMissing <==> found && course == None)
            && (SeededAnswer(roles, c, course) == Yes <==>
                found && course == Some(true) &&
                HasLists(roles, c, STUDENT_PERMISSIONS, MODERATOR_PERMISSIONS, ADMINISTRATOR_PERMISSIONS))
  {
    AnswerExactly(roles, c, course, STUDENT_PERMISSIONS, MODERATOR_PERMISSIONS, ADMINISTRATOR_PERMISSIONS,
                  CreateThread);
  }

  lemma AnswerExactly(roles: Roles, c: CourseId, course: Course, student: seq<Permission>, moderator: seq<Permission>,
                      administrator: seq<Permission>, posting: Permission)
    requires posting in student && IsPosting(posting)
    ensures var found := (c, Student) in roles && (c, Moderator) in roles && (c, Administrator) in roles;
            var answer := AnswerWith(roles, c, course, student, moderator, administrator);
            && (answer == CourseMissing <==> found && course == None)
            && (answer == Yes <==>
                found && course == Some(true) && HasLists(roles, c, student, moderator, administrator))
  {
    if (c, Student) in roles && (c, Moderator) in roles && (c, Administrator) in roles && course.Some? {
      if course == Some(false) {
        assert !Allows(roles, (c, Student), false, posting);
      } else {
        AllowedIsHad(roles, (c, Student), student);
        AllowedIsHad(roles, (c, Moderator), moderator + student);
        AllowedIsHad(roles, (c, Administrator), administrator + moderator + student);
      }
    }
  }

  lemma AllowedIsHad(roles: Roles, key: Key, ps: seq<Permission>)
    requires key in roles
    ensures AllowsAll(roles, key, true, ps) <==> forall p :: p in ps ==> p in roles[key]
  {
    forall p: Permission
      ensures Allows(roles, key, true, p) <==> p in roles[key]
    {
    }
  }

  /**
    Students' permissions are moderators', and moderators' are administrators' and community TAs'; the
    last two are equal exactly when the community TAs had nothing else before.
   */
  lemma SeedingNestsRoles(roles: Roles, c: CourseId, g: Grants)
    ensures var s := SeededWith(roles, c, g);
            && s[(c, Student)] <= s[(c, Moderator)] <= s[(c, Administrator)]
            && s[(c, Moderator)] <= s[(c, CommunityTA)]
            && (Had(roles, (c, CommunityTA)) <= s[(c, Moderator)] <==> s[(c, CommunityTA)] == s[(c, Moderator)])
  {
  }

  /** Seeding again changes nothing. */
  lemma SeedingIsIdempotent(roles: Roles, c: CourseId, g: Grants)
    ensures SeededWith(SeededWith(roles, c, g), c, g) == SeededWith(roles, c, g)
  {
    var once := SeededWith(roles, c, g);
    assert StudentSeed(once, c, g) == StudentSeed(roles, c, g);
    assert ModeratorSeed(once, c, g) == ModeratorSeed(roles, c, g);
    assert once[(c, CommunityTA)] + ModeratorSeed(once, c, g) == once[(c, CommunityTA)];
    assert once[(c, Administrator)] + g.administrator + ModeratorSeed(once, c, g) == once[(c, Administrator)];
  }
}
