/** Cohorts: each user in at most one per course (common/djangoapps/course_groups/cohorts.py, views.py). */
module Cohorts {
  import opened Wrappers

  type UserId = nat
  type CourseId = nat
  type CohortId = nat

  datatype Cohort = Cohort(course: CourseId, name: string, users: set<UserId>)

  /** The group table; `next` is the id the next row gets. */
  datatype State = State(cohorts: map<CohortId, Cohort>, next: CohortId)

  /** The user table, as the two lookups see it. */
  datatype Directory = Directory(byUsername: map<string, UserId>, byEmail: map<string, UserId>)

  datatype Settings = Settings(cohorted: bool, auto: bool, groups: seq<string>)

  predicate Holds(s: State, id: CohortId, c: CourseId, u: UserId) {
    id in s.cohorts && s.cohorts[id].course == c && u in s.cohorts[id].users
  }

  predicate Named(s: State, id: CohortId, c: CourseId, name: string) {
    id in s.cohorts && s.cohorts[id].course == c && s.cohorts[id].name == name
  }

  /** No user in two cohorts of a course, no name twice in a course: both single-row lookups are single. */
  ghost predicate Valid(s: State) {
    && (forall id :: id in s.cohorts ==> id < s.next)
    && (forall a, b, c, u :: Holds(s, a, c, u) && Holds(s, b, c, u) ==> a == b)
    && (forall a, b, c, name :: Named(s, a, c, name) && Named(s, b, c, name) ==> a == b)
  }

  /** The user's cohort in the course. */
  ghost function CohortOf(s: State, c: CourseId, u: UserId): Option<CohortId> {
    if id :| Holds(s, id, c, u) then Some(id) else None
  }

  ghost function Find(s: State, c: CourseId, name: string): Option<CohortId> {
    if id :| Named(s, id, c, name) then Some(id) else None
  }

  /** The same table with `us` gathered in cohort `id`, out of every other cohort of its course. */
  function Gathered(s: State, id: CohortId, us: set<UserId>): State
    requires id in s.cohorts
  {
    s.(cohorts := map k | k in s.cohorts ::
                    var row := s.cohorts[k];
                    if k == id then row.(users := row.users + us)
                    else if row.course == s.cohorts[id].course then row.(users := row.users - us)
                    else row)
  }

  ghost function Ensured(s: State, c: CourseId, name: string): State {
    if Find(s, c, name).Some? then s else State(s.cohorts[s.next := Cohort(c, name, {})], s.next + 1)
  }

  lemma GatherTwice(s: State, id: CohortId, a: set<UserId>, b: set<UserId>)
    requires id in s.cohorts
    ensures Gathered(Gathered(s, id, a), id, b) == Gathered(s, id, a + b)
  {
    var once, twice, all := Gathered(s, id, a), Gathered(Gathered(s, id, a), id, b), Gathered(s, id, a + b);
    forall k | k in s.cohorts
      ensures twice.cohorts[k] == all.cohorts[k]
    {
      var us := s.cohorts[k].users;
      assert (us + a) + b == us + (a + b) && (us - a) - b == us - (a + b);
    }
  }

  lemma GatherNobody(s: State, id: CohortId)
    requires id in s.cohorts
    ensures Gathered(s, id, {}) == s
  {
    forall k | k in s.cohorts
      ensures Gathered(s, id, {}).cohorts[k] == s.cohorts[k]
    {
      assert s.cohorts[k].users + {} == s.cohorts[k].users && s.cohorts[k].users - {} == s.cohorts[k].users;
    }
    assert Gathered(s, id, {}).cohorts == s.cohorts;
  }

  lemma GatheredIsValid(s: State, id: CohortId, us: set<UserId>)
    requires Valid(s) && id in s.cohorts
    ensures Valid(Gathered(s, id, us))
  {
    var t := Gathered(s, id, us);
    forall a, b, c, u | Holds(t, a, c, u) && Holds(t, b, c, u)
      ensures a == b
    {
      assert u !in us ==> Holds(s, a, c, u) && Holds(s, b, c, u);
      assert u in us && c != s.cohorts[id].course ==> Holds(s, a, c, u) && Holds(s, b, c, u);
    }
    forall a, b, c, name | Named(t, a, c, name) && Named(t, b, c, name)
      ensures a == b
    {
      assert Named(s, a, c, name) && Named(s, b, c, name);
    }
  }

  lemma EnsuredIsValid(s: State, c: CourseId, name: string)
    requires Valid(s)
    ensures Valid(Ensured(s, c, name)) && Find(Ensured(s, c, name), c, name).Some?
    ensures forall id :: id in s.cohorts ==>
              id in Ensured(s, c, name).cohorts && Ensured(s, c, name).cohorts[id] == s.cohorts[id]
  {
    var t := Ensured(s, c, name);
    if t != s {
      assert Named(t, s.next, c, name);
      forall a, b, c', u | Holds(t, a, c', u) && Holds(t, b, c', u)
        ensures a == b
      {
        assert Holds(s, a, c', u) && Holds(s, b, c', u);
      }
      forall a, b, c', n | Named(t, a, c', n) && Named(t, b, c', n)
        ensures a == b
      {
        assert a != s.next && b != s.next ==> Named(s, a, c', n) && Named(s, b, c', n);
        assert !Named(s, a, c, name) && !Named(s, b, c, name);
      }
    }
  }

  lemma LookupsAreSingle(s: State, id: CohortId, c: CourseId, u: UserId, name: string)
    requires Valid(s)
    ensures Holds(s, id, c, u) ==> CohortOf(s, c, u) == Some(id)
    ensures Named(s, id, c, name) ==> Find(s, c, name) == Some(id)
  {
    if Holds(s, id, c, u) {
      var other := CohortOf(s, c, u).value;
      assert Holds(s, other, c, u);
    }
    if Named(s, id, c, name) {
      var other := Find(s, c, name).value;
      assert Named(s, other, c, name);
    }
  }

  // ---------------------------------------------------------------- the batch form

  predicate IsSeparator(ch: char) {
    ch == ',' || ch == ' ' || '\t' <= ch <= '\r'
  }

  predicate HasSeparator(s: string) {
    exists i :: 0 <= i < |s| && IsSeparator(s[i])
  }

  function FirstSeparator(s: string): (i: nat)
    ensures i <= |s| && (i < |s| <==> HasSeparator(s))
    ensures i < |s| ==> IsSeparator(s[i])
    ensures !HasSeparator(s[..i])
  {
    if s == "" || IsSeparator(s[0]) then 0 else
      var i := FirstSeparator(s[1..]);
      assert forall j :: 0 <= j < |s| - 1 ==> s[1..][j] == s[j + 1];
      assert HasSeparator(s) ==> HasSeparator(s[1..]) by {
        if HasSeparator(s) {
          var j :| 0 <= j < |s| && IsSeparator(s[j]);
          assert s[1..][j - 1] == s[j];
        }
      }
      assert !HasSeparator(s[..i + 1]) by {
        assert forall j :: 0 < j < i + 1 ==> s[j] == s[1..][..i][j - 1];
      }
      i + 1
  }

  function SkipSeparators(s: string): (r: string)
    ensures |r| <= |s|
    ensures s != "" && IsSeparator(s[0]) ==> |r| < |s|
  {
    if s == "" || !IsSeparator(s[0]) then s else SkipSeparators(s[1..])
  }

  /** Splitting at every maximal run of commas and whitespace. */
  function Split(s: string): (tokens: seq<string>)
    ensures forall t :: t in tokens ==> !HasSeparator(t)
    decreases |s|
  {
    var i := FirstSeparator(s);
    if i == |s| then assert s == s[..i]; [s] else [s[..i]] + Split(SkipSeparators(s[i..]))
  }

  /** The tokens with one of the separators in each gap. */
  function Join(tokens: seq<string>, separators: seq<string>): string
    requires |tokens| == |separators| + 1
  {
    if separators == [] then tokens[0] else tokens[0] + separators[0] + Join(tokens[1..], separators[1..])
  }

  predicate AllSeparators(s: string) {
    forall i :: 0 <= i < |s| ==> IsSeparator(s[i])
  }

  lemma {:induction false} SkipAll(separator: string, rest: string)
    requires AllSeparators(separator) && (rest == "" || !IsSeparator(rest[0]))
    ensures SkipSeparators(separator + rest) == rest
  {
    if separator == "" {
      assert separator + rest == rest;
    } else {
      SkipAll(separator[1..], rest);
      assert (separator + rest)[1..] == separator[1..] + rest;
    }
  }

  lemma {:induction false} FirstSeparatorAfter(token: string, rest: string)
    requires !HasSeparator(token) && rest != "" && IsSeparator(rest[0])
    ensures FirstSeparator(token + rest) == |token|
  {
    if token == "" {
      assert token + rest == rest;
    } else {
      assert IsSeparator(token[0]) ==> HasSeparator(token);
      assert forall i :: 0 <= i < |token| - 1 ==> token[1..][i] == token[i + 1];
      FirstSeparatorAfter(token[1..], rest);
      assert (token + rest)[1..] == token[1..] + rest;
    }
  }

  lemma TokenStart(t: string)
    requires t != "" && !HasSeparator(t)
    ensures !IsSeparator(t[0])
  {
  }

  /** Commas, and what Python 2 takes for whitespace: tab, newline, vertical tab, form feed, return and space. */
  lemma SeparatorsExactly(ch: char)
    ensures IsSeparator(ch) <==> ch in ", \t\n\U{00000B}\U{00000C}\r"
  {
    var all := ", \t\n\U{00000B}\U{00000C}\r";
    assert all[0] == ',' && all[1] == ' ' && all[2] == '\t' && all[3] == '\n' && all[6] == '\r';
    assert all[4] == 11 as char && all[5] == 12 as char;
  }

  /** Round trip: names with any separators between them come back as the same names in the same order. */
  lemma {:induction false} SplitJoin(tokens: seq<string>, separators: seq<string>)
    requires |tokens| == |separators| + 1
    requires forall i :: 0 <= i < |separators| ==> separators[i] != "" && AllSeparators(separators[i])
    requires forall i :: 0 <= i < |tokens| ==> tokens[i] != "" && !HasSeparator(tokens[i])
    ensures Split(Join(tokens, separators)) == tokens
  {
    if |tokens| == 1 {
      assert !HasSeparator(tokens[0]);
    } else {
      var rest := Join(tokens[1..], separators[1..]);
      SplitJoin(tokens[1..], separators[1..]);
      assert rest[0] == tokens[1][0];
      TokenStart(tokens[1]);
      SplitFirst(tokens[0], separators[0], rest);
      assert tokens == [tokens[0]] + tokens[1..];
    }
  }

  lemma SplitFirst(token: string, separator: string, rest: string)
    requires !HasSeparator(token) && separator != "" && AllSeparators(separator)
    requires rest != "" && !IsSeparator(rest[0])
    ensures Split(token + separator + rest) == [token] + Split(rest)
  {
    var s := token + separator + rest;
    assert s == token + (separator + rest);
    FirstSeparatorAfter(token, separator + rest);
    assert s[..|token|] == token && s[|token|..] == separator + rest;
    SkipAll(separator, rest);
  }

  /** Separators in front of a text give an empty token first, and separators after its last name one at the end. */
  lemma SplitLeading(separator: string, text: string)
    requires separator != "" && AllSeparators(separator) && text != "" && !IsSeparator(text[0])
    ensures Split(separator + text) == [""] + Split(text)
  {
    SplitFirst("", separator, text);
    assert "" + separator + text == separator + text;
  }

  lemma SplitTrailing(name: string, separator: string)
    requires separator != "" && AllSeparators(separator) && !HasSeparator(name)
    ensures Split(name + separator) == [name] + [""]
  {
    FirstSeparatorAfter(name, separator);
    assert (name + separator)[..|name|] == name && (name + separator)[|name|..] == separator;
    SkipAll(separator, "");
    assert separator + "" == separator;
    SplitOfOne("");
  }

  lemma SplitOfOne(name: string)
    requires !HasSeparator(name)
    ensures Split(name) == [name]
  {
  }

  function Resolve(d: Directory, token: string): Option<UserId> {
    var table := if '@' in token then d.byEmail else d.byUsername;
    if token in table then Some(table[token]) else None
  }

  /** The users the first `n` tokens name. */
  function Resolved(d: Directory, tokens: seq<string>, n: nat): set<UserId>
    requires n <= |tokens|
  {
    if n == 0 then {}
    else
      var user := Resolve(d, tokens[n - 1]);
      Resolved(d, tokens, n - 1) + (if tokens[n - 1] != "" && user.Some? then {user.value} else {})
  }

  datatype Fate = Skipped | Unknown | Present | Changed(user: UserId, from: string) | Added(user: UserId)

  /**
    What becomes of token `i`, told from the table before the batch: unknown if the lookup fails, present
    if the user was in the cohort or an earlier token named them, changed if they were in another cohort
    of the course that has a name to report, added otherwise.
   */
  ghost function FateOf(d: Directory, s: State, id: CohortId, tokens: seq<string>, i: nat): Fate
    requires i < |tokens| && id in s.cohorts
  {
    var user := Resolve(d, tokens[i]);
    if tokens[i] == "" then Skipped
    else if user.None? then Unknown
    else if user.value in s.cohorts[id].users + Resolved(d, tokens, i) then Present
    else
      var was := PreviousName(s, id, user.value);
      if was.Some? && was.value != "" then Changed(user.value, was.value) else Added(user.value)
  }

  ghost function PreviousName(s: State, id: CohortId, u: UserId): Option<string>
    requires id in s.cohorts
  {
    var was := CohortOf(s, s.cohorts[id].course, u);
    if was.Some? then Some(s.cohorts[was.value].name) else None
  }

  datatype Lists = Lists(added: seq<UserId>, changed: seq<(UserId, string)>, present: seq<string>, unknown: seq<string>)

  function Sorted(lists: Lists, token: string, fate: Fate): Lists {
    match fate
    case Skipped => lists
    case Unknown => lists.(unknown := lists.unknown + [token])
    case Present => lists.(present := lists.present + [token])
    case Changed(u, from) => lists.(changed := lists.changed + [(u, from)])
    case Added(u) => lists.(added := lists.added + [u])
  }

  ghost function Report(d: Directory, s: State, id: CohortId, tokens: seq<string>, n: nat): Lists
    requires n <= |tokens| && id in s.cohorts
  {
    if n == 0 then Lists([], [], [], [])
    else Sorted(Report(d, s, id, tokens, n - 1), tokens[n - 1], FateOf(d, s, id, tokens, n - 1))
  }

  /** After gathering `us`, a user outside them is where they were; one of them is in the cohort. */
  lemma GatheredLookup(s: State, id: CohortId, us: set<UserId>, u: UserId)
    requires Valid(s) && id in s.cohorts && u !in us
    ensures PreviousName(Gathered(s, id, us), id, u) == PreviousName(s, id, u)
    ensures CohortOf(Gathered(s, id, us), s.cohorts[id].course, u) == CohortOf(s, s.cohorts[id].course, u)
  {
    var t, c := Gathered(s, id, us), s.cohorts[id].course;
    GatheredIsValid(s, id, us);
    if CohortOf(s, c, u).Some? {
      LookupsAreSingle(t, CohortOf(s, c, u).value, c, u, "");
    } else if CohortOf(t, c, u).Some? {
      assert Holds(s, CohortOf(t, c, u).value, c, u);
    }
  }

  predicate ComesIn(fate: Fate) {
    fate.Added? || fate.Changed?
  }

  /** The users the first `n` tokens bring into the cohort. */
  function Newcomers(d: Directory, s: State, id: CohortId, tokens: seq<string>, n: nat): set<UserId>
    requires n <= |tokens| && id in s.cohorts
  {
    Resolved(d, tokens, n) - s.cohorts[id].users
  }

  lemma NewcomersOneMore(d: Directory, s: State, id: CohortId, tokens: seq<string>, i: nat)
    requires i < |tokens| && id in s.cohorts
    ensures var fate := FateOf(d, s, id, tokens, i);
            var before, after := Newcomers(d, s, id, tokens, i), Newcomers(d, s, id, tokens, i + 1);
            if ComesIn(fate) then fate.user !in before && after == before + {fate.user} else after == before
  {
  }

  datatype AddOutcome = NoSuchUser | AlreadyPresent | Done(user: UserId, previous: Option<string>)

  function FateTold(outcome: AddOutcome): Fate {
    match outcome
    case NoSuchUser => Unknown
    case AlreadyPresent => Present
    case Done(u, previous) => if previous.Some? && previous.value != "" then Changed(u, previous.value) else Added(u)
  }

  /** What adding one user answers. */
  ghost function OutcomeOf(d: Directory, s: State, id: CohortId, token: string): AddOutcome
    requires id in s.cohorts
  {
    var user := Resolve(d, token);
    if user.None? then NoSuchUser
    else if user.value in s.cohorts[id].users then AlreadyPresent
    else Done(user.value, PreviousName(s, id, user.value))
  }

  function AfterOutcome(s: State, id: CohortId, outcome: AddOutcome): State
    requires id in s.cohorts
  {
    if outcome.Done? then Gathered(s, id, {outcome.user}) else s
  }

  /** One token, met in the middle of a batch, has the fate the table before the batch decides. */
  lemma BatchOneMore(d: Directory, s: State, id: CohortId, tokens: seq<string>, i: nat)
    requires Valid(s) && i < |tokens| && id in s.cohorts
    ensures var now := Gathered(s, id, Newcomers(d, s, id, tokens, i));
            var next := Gathered(s, id, Newcomers(d, s, id, tokens, i + 1));
            if tokens[i] == "" then FateOf(d, s, id, tokens, i) == Skipped && next == now
            else
              var outcome := OutcomeOf(d, now, id, tokens[i]);
              FateTold(outcome) == FateOf(d, s, id, tokens, i) && AfterOutcome(now, id, outcome) == next
  {
    var fate := FateOf(d, s, id, tokens, i);
    var us := Newcomers(d, s, id, tokens, i);
    NewcomersOneMore(d, s, id, tokens, i);
    if ComesIn(fate) {
      GatherTwice(s, id, us, {fate.user});
      GatheredLookup(s, id, us, fate.user);
    }
  }

  datatype Result<T> = Ok(value: T) | CourseMissing | CohortMissing | UserMissing | NotSpecified | NameTaken | NotEmpty

  /** Where `get_cohort` puts a user who has no cohort yet; `pick` is the random generator's answer. */
  function AutoName(settings: Settings, pick: nat): Option<string> {
    if settings.cohorted && settings.auto && settings.groups != []
    then Some(settings.groups[pick % |settings.groups|]) else None
  }

  ghost function Assigned(s: State, c: CourseId, u: UserId, settings: Option<Settings>, pick: nat): State
    requires Valid(s)
  {
    if settings.None? || !settings.value.cohorted || CohortOf(s, c, u).Some? || AutoName(settings.value, pick).None?
    then s
    else
      var name := AutoName(settings.value, pick).value;
      var t := Ensured(s, c, name);
      EnsuredIsValid(s, c, name);
      Gathered(t, Find(t, c, name).value, {u})
  }

  class CohortTable {
    const directory: Directory
    var cohorts: map<CohortId, Cohort>
    var next: CohortId

    ghost function Abs(): State
      reads this
    {
      State(cohorts, next)
    }

    constructor (directory: Directory)
      ensures this.directory == directory && Abs() == State(map[], 0) && Valid(Abs())
    {
      this.directory := directory;
      cohorts, next := map[], 0;
    }

    method GetOrCreate(c: CourseId, name: string) returns (id: CohortId)
      requires Valid(Abs())
      modifies this
      ensures Abs() == Ensured(old(Abs()), c, name) && Valid(Abs())
      ensures Find(Abs(), c, name) == Some(id)
    {
      EnsuredIsValid(Abs(), c, name);
      if g :| g in cohorts && cohorts[g].course == c && cohorts[g].name == name {
        assert Named(Abs(), g, c, name);
        id := g;
      } else {
        assert Find(Abs(), c, name).None?;
        id := next;
        cohorts := cohorts[id := Cohort(c, name, {})];
        next := next + 1;
        assert Named(Abs(), id, c, name);
      }
      LookupsAreSingle(Abs(), id, c, 0, name);
    }

    method GetCohort(c: CourseId, u: UserId, settings: Option<Settings>, pick: nat)
      returns (r: Result<Option<CohortId>>)
      requires Valid(Abs())
      modifies this
      ensures Abs() == Assigned(old(Abs()), c, u, settings, pick) && Valid(Abs())
      ensures r == if settings.None? then CourseMissing
                   else if settings.value.cohorted then Ok(CohortOf(Abs(), c, u)) else Ok(None)
    {
      if settings.None? {
        return CourseMissing;
      }
      if !settings.value.cohorted {
        return Ok(None);
      }
      if g :| g in cohorts && cohorts[g].course == c && u in cohorts[g].users {
        assert Holds(Abs(), g, c, u);
        LookupsAreSingle(Abs(), g, c, u, "");
        return Ok(Some(g));
      }
      assert CohortOf(Abs(), c, u).None?;
      if !settings.value.auto || |settings.value.groups| == 0 {
        return Ok(None);
      }
      var name := settings.value.groups[pick % |settings.value.groups|];
      var id := GetOrCreate(c, name);
      ghost var s := Abs();
      cohorts := cohorts[id := cohorts[id].(users := cohorts[id].users + {u})];
      NewcomerGathered(s, id, u);
      GatheredIsValid(s, id, {u});
      assert Holds(Abs(), id, c, u);
      LookupsAreSingle(Abs(), id, c, u, "");
      return Ok(Some(id));
    }

    method GetCourseCohorts(c: CourseId, settings: Settings) returns (ids: set<CohortId>)
      requires Valid(Abs())
      modifies this
      ensures Abs() == AllEnsured(old(Abs()), c, settings) && Valid(Abs())
      ensures ids == set id | id in cohorts && cohorts[id].course == c
    {
      if settings.auto {
        for i := 0 to |settings.groups|
          invariant Valid(Abs())
          invariant AllEnsured(old(Abs()), c, settings) == EnsuredFrom(Abs(), c, settings.groups[i..])
        {
          var _ := GetOrCreate(c, settings.groups[i]);
          assert settings.groups[i..][1..] == settings.groups[i + 1..];
        }
      }
      ids := set id | id in cohorts && cohorts[id].course == c;
    }

    method AddCohort(c: CourseId, name: string, courseExists: bool) returns (r: Result<CohortId>)
      requires Valid(Abs())
      modifies this
      ensures Valid(Abs())
      ensures Abs() == if courseExists then Ensured(old(Abs()), c, name) else old(Abs())
      ensures match r
              case Ok(id) => courseExists && id == old(next) && Find(old(Abs()), c, name).None?
              case NameTaken => Find(old(Abs()), c, name).Some?
              case CourseMissing => !courseExists && Find(old(Abs()), c, name).None?
              case _ => false
    {
      if g :| g in cohorts && cohorts[g].course == c && cohorts[g].name == name {
        assert Named(Abs(), g, c, name);
        return NameTaken;
      }
      assert Find(Abs(), c, name).None?;
      if !courseExists {
        return CourseMissing;
      }
      EnsuredIsValid(Abs(), c, name);
      var id := next;
      cohorts := cohorts[id := Cohort(c, name, {})];
      next := next + 1;
      return Ok(id);
    }

    method AddUserToCohort(id: CohortId, token: string) returns (outcome: AddOutcome)
      requires Valid(Abs()) && id in cohorts
      modifies this
      ensures Valid(Abs()) && id in cohorts
      ensures outcome == OutcomeOf(directory, old(Abs()), id, token)
      ensures Abs() == AfterOutcome(old(Abs()), id, outcome)
    {
      var user := Resolve(directory, token);
      if user.None? {
        return NoSuchUser;
      }
      var u, c := user.value, cohorts[id].course;
      var previous := None;
      ghost var s := Abs();
      GatheredIsValid(s, id, {u});
      if g :| g in cohorts && cohorts[g].course == c && u in cohorts[g].users {
        assert Holds(s, g, c, u);
        LookupsAreSingle(s, g, c, u, "");
        if g == id {
          return AlreadyPresent;
        }
        assert u in cohorts[id].users ==> Holds(s, id, c, u);
        previous := Some(cohorts[g].name);
        cohorts := cohorts[g := cohorts[g].(users := cohorts[g].users - {u})];
        MoveGathered(s, g, id, u);
      } else {
        assert CohortOf(s, c, u).None?;
        assert u in cohorts[id].users ==> Holds(s, id, c, u);
        NewcomerGathered(s, id, u);
      }
      cohorts := cohorts[id := cohorts[id].(users := cohorts[id].users + {u})];
      return Done(u, previous);
    }

    method AddUsersToCohort(c: CourseId, id: CohortId, text: string) returns (r: Result<Lists>)
      requires Valid(Abs())
      modifies this
      ensures Valid(Abs())
      ensures var s, tokens := old(Abs()), Split(text);
              if id in s.cohorts && s.cohorts[id].course == c then
                && r == Ok(Report(directory, s, id, tokens, |tokens|))
                && Abs() == Gathered(s, id, Newcomers(directory, s, id, tokens, |tokens|))
              else r == CohortMissing && Abs() == s
    {
      if !(id in cohorts && cohorts[id].course == c) {
        return CohortMissing;
      }
      ghost var s := Abs();
      var tokens := Split(text);
      var lists := Lists([], [], [], []);
      GatherNobody(s, id);
      assert Newcomers(directory, s, id, tokens, 0) == {};
      for i := 0 to |tokens|
        invariant Valid(Abs()) && id in cohorts
        invariant Abs() == Gathered(s, id, Newcomers(directory, s, id, tokens, i))
        invariant lists == Report(directory, s, id, tokens, i)
      {
        BatchOneMore(directory, s, id, tokens, i);
        if tokens[i] == "" {
          continue;
        }
        var outcome := AddUserToCohort(id, tokens[i]);
        lists := SortOutcome(lists, tokens[i], outcome);
      }
      return Ok(lists);
    }

    static method SortOutcome(lists: Lists, token: string, outcome: AddOutcome) returns (sorted: Lists)
      ensures sorted == Sorted(lists, token, FateTold(outcome))
    {
      match outcome {
        case Done(user, previous) =>
          if previous.Some? && previous.value != "" {
            sorted := lists.(changed := lists.changed + [(user, previous.value)]);
          } else {
            sorted := lists.(added := lists.added + [user]);
          }
        case AlreadyPresent =>
          sorted := lists.(present := lists.present + [token]);
        case NoSuchUser =>
          sorted := lists.(unknown := lists.unknown + [token]);
      }
    }

    method RemoveUserFromCohort(c: CourseId, id: CohortId, username: Option<string>) returns (r: Result<()>)
      requires Valid(Abs())
      modifies this
      ensures Valid(Abs())
      ensures r == if username.None? then NotSpecified
                   else if !(id in old(cohorts) && old(cohorts[id].course) == c) then CohortMissing
                   else if username.value !in directory.byUsername then UserMissing else Ok(())
      ensures Abs() == if r.Ok? then Without(old(Abs()), id, directory.byUsername[username.value]) else old(Abs())
    {
      if username.None? {
        return NotSpecified;
      }
      if !(id in cohorts && cohorts[id].course == c) {
        return CohortMissing;
      }
      if username.value !in directory.byUsername {
        return UserMissing;
      }
      var u := directory.byUsername[username.value];
      WithoutIsValid(Abs(), id, u);
      cohorts := cohorts[id := cohorts[id].(users := cohorts[id].users - {u})];
      return Ok(());
    }

    method DeleteEmptyCohort(c: CourseId, name: string) returns (r: Result<()>)
      requires Valid(Abs())
      modifies this
      ensures Valid(Abs()) && Abs() == Dropped(old(Abs()), c, name)
      ensures r == var found := Find(old(Abs()), c, name);
                   if found.None? then CohortMissing
                   else if old(cohorts)[found.value].users != {} then NotEmpty else Ok(())
    {
      DroppedIsValid(Abs(), c, name);
      if g :| g in cohorts && cohorts[g].course == c && cohorts[g].name == name {
        assert Named(Abs(), g, c, name);
        LookupsAreSingle(Abs(), g, c, 0, name);
        if cohorts[g].users != {} {
          return NotEmpty;
        }
        cohorts := cohorts - {g};
        return Ok(());
      }
      assert Find(Abs(), c, name).None?;
      return CohortMissing;
    }
  }

  lemma NewcomerGathered(s: State, id: CohortId, u: UserId)
    requires Valid(s) && id in s.cohorts && CohortOf(s, s.cohorts[id].course, u).None?
    ensures Gathered(s, id, {u}) == s.(cohorts := s.cohorts[id := s.cohorts[id].(users := s.cohorts[id].users + {u})])
  {
    forall k | k in s.cohorts && k != id
      ensures Gathered(s, id, {u}).cohorts[k] == s.cohorts[k]
    {
      assert !Holds(s, k, s.cohorts[id].course, u);
      assert s.cohorts[k].course == s.cohorts[id].course ==> s.cohorts[k].users - {u} == s.cohorts[k].users;
    }
  }

  lemma MoveGathered(s: State, from: CohortId, to: CohortId, u: UserId)
    requires Valid(s) && to in s.cohorts && from != to && Holds(s, from, s.cohorts[to].course, u)
    ensures var rows := s.cohorts[from := s.cohorts[from].(users := s.cohorts[from].users - {u})];
            Gathered(s, to, {u}) == s.(cohorts := rows[to := rows[to].(users := rows[to].users + {u})])
  {
    forall k | k in s.cohorts && k != to && k != from
      ensures Gathered(s, to, {u}).cohorts[k] == s.cohorts[k]
    {
      assert !Holds(s, k, s.cohorts[to].course, u);
      assert s.cohorts[k].course == s.cohorts[to].course ==> s.cohorts[k].users - {u} == s.cohorts[k].users;
    }
  }

  function Without(s: State, id: CohortId, u: UserId): State
    requires id in s.cohorts
  {
    s.(cohorts := s.cohorts[id := s.cohorts[id].(users := s.cohorts[id].users - {u})])
  }

  lemma WithoutIsValid(s: State, id: CohortId, u: UserId)
    requires Valid(s) && id in s.cohorts
    ensures Valid(Without(s, id, u))
  {
    var t := Without(s, id, u);
    forall a, b, c', v | Holds(t, a, c', v) && Holds(t, b, c', v)
      ensures a == b
    {
      assert Holds(s, a, c', v) && Holds(s, b, c', v);
    }
    forall a, b, c', n | Named(t, a, c', n) && Named(t, b, c', n)
      ensures a == b
    {
      assert Named(s, a, c', n) && Named(s, b, c', n);
    }
  }

  ghost function Dropped(s: State, c: CourseId, name: string): State {
    var found := Find(s, c, name);
    if found.Some? && s.cohorts[found.value].users == {} then s.(cohorts := s.cohorts - {found.value}) else s
  }

  lemma DroppedIsValid(s: State, c: CourseId, name: string)
    requires Valid(s)
    ensures Valid(Dropped(s, c, name))
  {
    var t := Dropped(s, c, name);
    forall a, b, c', v | Holds(t, a, c', v) && Holds(t, b, c', v)
      ensures a == b
    {
      assert Holds(s, a, c', v) && Holds(s, b, c', v);
    }
    forall a, b, c', n | Named(t, a, c', n) && Named(t, b, c', n)
      ensures a == b
    {
      assert Named(s, a, c', n) && Named(s, b, c', n);
    }
  }

  ghost function EnsuredFrom(s: State, c: CourseId, names: seq<string>): State
    decreases |names|
  {
    if names == [] then s else EnsuredFrom(Ensured(s, c, names[0]), c, names[1..])
  }

  ghost function AllEnsured(s: State, c: CourseId, settings: Settings): State {
    if settings.auto then EnsuredFrom(s, c, settings.groups) else s
  }

  lemma {:induction false} EnsuredFromKeeps(s: State, c: CourseId, names: seq<string>)
    requires Valid(s)
    ensures Valid(EnsuredFrom(s, c, names))
    ensures forall id :: id in s.cohorts ==>
              id in EnsuredFrom(s, c, names).cohorts && EnsuredFrom(s, c, names).cohorts[id] == s.cohorts[id]
    ensures forall name :: name in names ==> Find(EnsuredFrom(s, c, names), c, name).Some?
    decreases |names|
  {
    if names != [] {
      EnsuredIsValid(s, c, names[0]);
      var t := Ensured(s, c, names[0]);
      EnsuredFromKeeps(t, c, names[1..]);
      var id := Find(t, c, names[0]).value;
      assert Named(EnsuredFrom(s, c, names), id, c, names[0]);
    }
  }

  // ---------------------------------------------------------------- runs

  datatype Op =
    | Get(course: CourseId, user: UserId, settings: Option<Settings>, pick: nat)
    | ListAll(course: CourseId, autoSettings: Settings)
    | Add(course: CourseId, name: string, courseExists: bool)
    | Batch(course: CourseId, id: CohortId, tokens: seq<string>)
    | Remove(course: CourseId, id: CohortId, username: string)
    | Delete(course: CourseId, name: string)

  ghost function Step(d: Directory, s: State, op: Op): State
    requires Valid(s)
  {
    match op
    case Get(c, u, settings, pick) => Assigned(s, c, u, settings, pick)
    case ListAll(c, settings) => AllEnsured(s, c, settings)
    case Add(c, name, found) => if found then Ensured(s, c, name) else s
    case Batch(c, id, tokens) =>
      if id in s.cohorts && s.cohorts[id].course == c
      then Gathered(s, id, Newcomers(d, s, id, tokens, |tokens|)) else s
    case Remove(c, id, username) =>
      if id in s.cohorts && s.cohorts[id].course == c && username in d.byUsername
      then Without(s, id, d.byUsername[username]) else s
    case Delete(c, name) => Dropped(s, c, name)
  }

  lemma StepIsValid(d: Directory, s: State, op: Op)
    requires Valid(s)
    ensures Valid(Step(d, s, op))
  {
    match op {
      case Get(c, u, settings, pick) =>
        if Step(d, s, op) != s {
          var name := AutoName(settings.value, pick).value;
          EnsuredIsValid(s, c, name);
          GatheredIsValid(Ensured(s, c, name), Find(Ensured(s, c, name), c, name).value, {u});
        }
      case ListAll(c, settings) => EnsuredFromKeeps(s, c, settings.groups);
      case Add(c, name, _) => EnsuredIsValid(s, c, name);
      case Batch(_, id, tokens) =>
        if id in s.cohorts {
          GatheredIsValid(s, id, Newcomers(d, s, id, tokens, |tokens|));
        }
      case Remove(_, id, username) =>
        if id in s.cohorts && username in d.byUsername {
          WithoutIsValid(s, id, d.byUsername[username]);
        }
      case Delete(c, name) => DroppedIsValid(s, c, name);
    }
  }

  ghost function Run(d: Directory, s: State, ops: seq<Op>): (t: State)
    requires Valid(s)
    ensures Valid(t)
  {
    if ops == [] then s
    else
      var before := Run(d, s, ops[..|ops| - 1]);
      StepIsValid(d, before, ops[|ops| - 1]);
      Step(d, before, ops[|ops| - 1])
  }

  /** Whether the operation explicitly moves or removes the user in the course. */
  predicate Displaces(d: Directory, op: Op, c: CourseId, u: UserId) {
    match op
    case Batch(course, _, tokens) => course == c && u in Resolved(d, tokens, |tokens|)
    case Remove(course, _, username) => course == c && username in d.byUsername && d.byUsername[username] == u
    case _ => false
  }

  lemma StepKeepsCohort(d: Directory, s: State, op: Op, c: CourseId, u: UserId)
    requires Valid(s) && CohortOf(s, c, u).Some? && !Displaces(d, op, c, u)
    ensures CohortOf(Step(d, s, op), c, u) == CohortOf(s, c, u)
  {
    var id := CohortOf(s, c, u).value;
    var t := Step(d, s, op);
    StepIsValid(d, s, op);
    assert Holds(t, id, c, u) by {
      match op {
        case Get(c', u', settings, pick) =>
          if t != s {
            EnsuredIsValid(s, c', AutoName(settings.value, pick).value);
          }
        case ListAll(c', settings) => EnsuredFromKeeps(s, c', settings.groups);
        case Add(c', name, _) => EnsuredIsValid(s, c', name);
        case _ =>
      }
    }
    LookupsAreSingle(t, id, c, u, "");
  }

  /** Once in a cohort, a user stays in it through any run that does not explicitly move or remove them. */
  lemma {:induction false} CohortIsSticky(d: Directory, s: State, ops: seq<Op>, c: CourseId, u: UserId)
    requires Valid(s) && CohortOf(s, c, u).Some?
    requires forall i :: 0 <= i < |ops| ==> !Displaces(d, ops[i], c, u)
    ensures CohortOf(Run(d, s, ops), c, u) == CohortOf(s, c, u)
  {
    if ops != [] {
      CohortIsSticky(d, s, ops[..|ops| - 1], c, u);
      StepKeepsCohort(d, Run(d, s, ops[..|ops| - 1]), ops[|ops| - 1], c, u);
    }
  }

  /** `get_cohort` in an auto-cohorted course leaves the user in a cohort, and asking again gives the same one. */
  lemma GetAssigns(s: State, c: CourseId, u: UserId, settings: Settings, pick: nat, again: nat)
    requires Valid(s) && settings.cohorted && settings.auto && settings.groups != []
    ensures var t := Assigned(s, c, u, Some(settings), pick);
            && Valid(t) && CohortOf(t, c, u).Some?
            && Assigned(t, c, u, Some(settings), again) == t
            && (CohortOf(s, c, u).None? ==> t.cohorts[CohortOf(t, c, u).value].name in settings.groups)
  {
    var op := Get(c, u, Some(settings), pick);
    StepIsValid(Directory(map[], map[]), s, op);
    if CohortOf(s, c, u).None? {
      var name := AutoName(settings, pick).value;
      var e := Ensured(s, c, name);
      EnsuredIsValid(s, c, name);
      var id := Find(e, c, name).value;
      var t := Gathered(e, id, {u});
      assert Holds(t, id, c, u);
      LookupsAreSingle(t, id, c, u, "");
    }
  }

  /** After a batch, everyone it named is in the cohort and in no other cohort of the course; nobody else has moved. */
  lemma BatchPlacesEveryone(d: Directory, s: State, c: CourseId, id: CohortId, tokens: seq<string>, u: UserId,
                            course: CourseId)
    requires Valid(s) && id in s.cohorts && s.cohorts[id].course == c
    ensures CohortOf(Step(d, s, Batch(c, id, tokens)), course, u) ==
            if course == c && u in Resolved(d, tokens, |tokens|) then Some(id) else CohortOf(s, course, u)
  {
    var op := Batch(c, id, tokens);
    var t := Step(d, s, op);
    StepIsValid(d, s, op);
    if course == c && u in Resolved(d, tokens, |tokens|) {
      assert Holds(t, id, c, u);
      LookupsAreSingle(t, id, c, u, "");
    } else if CohortOf(s, course, u).Some? {
      StepKeepsCohort(d, s, op, course, u);
    } else if CohortOf(t, course, u).Some? {
      assert Holds(s, CohortOf(t, course, u).value, course, u);
    }
  }

  /** How many of the first `n` tokens are names, not blanks. */
  function NameCount(tokens: seq<string>, n: nat): nat
    requires n <= |tokens|
  {
    if n == 0 then 0 else NameCount(tokens, n - 1) + (if tokens[n - 1] == "" then 0 else 1)
  }

  /** Every name lands in exactly one list. */
  lemma {:induction false} EveryNameReported(d: Directory, s: State, id: CohortId, tokens: seq<string>, n: nat)
    requires n <= |tokens| && id in s.cohorts
    ensures var r := Report(d, s, id, tokens, n);
            |r.added| + |r.changed| + |r.present| + |r.unknown| == NameCount(tokens, n)
  {
    if n > 0 {
      EveryNameReported(d, s, id, tokens, n - 1);
    }
  }

  ghost predicate CameIn(r: Lists, u: UserId) {
    u in r.added || exists i :: 0 <= i < |r.changed| && r.changed[i].0 == u
  }

  /** The lists name exactly the newcomers, each once. */
  ghost predicate Names(r: Lists, newcomers: set<UserId>) {
    (forall u: UserId :: u in newcomers <==> CameIn(r, u)) && |r.added| + |r.changed| == |newcomers|
  }

  /** How one token extends the lists and the newcomers together. */
  predicate Extends(p: Lists, token: string, fate: Fate, r: Lists, before: set<UserId>, after: set<UserId>) {
    && r == Sorted(p, token, fate)
    && if ComesIn(fate) then fate.user !in before && after == before + {fate.user} else after == before
  }

  lemma SortedNames(p: Lists, token: string, fate: Fate, r: Lists, before: set<UserId>, after: set<UserId>)
    requires Names(p, before) && Extends(p, token, fate, r, before, after)
    ensures Names(r, after)
  {
    forall u: UserId
      ensures u in after <==> CameIn(r, u)
    {
      assert fate.Changed? ==> r.changed[|p.changed|].0 == fate.user;
      if i :| 0 <= i < |p.changed| && p.changed[i].0 == u {
        assert r.changed[i].0 == u;
      }
    }
  }

  /** Nobody is reported as moved or added twice, and those so reported are exactly the ones who came in. */
  lemma {:induction false} MovedExactly(d: Directory, s: State, id: CohortId, tokens: seq<string>, n: nat)
    requires n <= |tokens| && id in s.cohorts
    ensures Names(Report(d, s, id, tokens, n), Newcomers(d, s, id, tokens, n))
  {
    if n == 0 {
      NobodyNamed();
      assert Newcomers(d, s, id, tokens, n) == {};
    } else {
      MovedExactly(d, s, id, tokens, n - 1);
      MovedOneMore(d, s, id, tokens, n);
    }
  }

  lemma NobodyNamed()
    ensures Names(Lists([], [], [], []), {})
  {
  }

  lemma MovedOneMore(d: Directory, s: State, id: CohortId, tokens: seq<string>, n: nat)
    requires 0 < n <= |tokens| && id in s.cohorts
    requires Names(Report(d, s, id, tokens, n - 1), Newcomers(d, s, id, tokens, n - 1))
    ensures Names(Report(d, s, id, tokens, n), Newcomers(d, s, id, tokens, n))
  {
    var fate := ReportOneMore(d, s, id, tokens, n);
    SortedNames(Report(d, s, id, tokens, n - 1), tokens[n - 1], fate, Report(d, s, id, tokens, n),
                Newcomers(d, s, id, tokens, n - 1), Newcomers(d, s, id, tokens, n));
  }

  lemma ReportOneMore(d: Directory, s: State, id: CohortId, tokens: seq<string>, n: nat) returns (fate: Fate)
    requires 0 < n <= |tokens| && id in s.cohorts
    ensures Extends(Report(d, s, id, tokens, n - 1), tokens[n - 1], fate, Report(d, s, id, tokens, n),
                    Newcomers(d, s, id, tokens, n - 1), Newcomers(d, s, id, tokens, n))
  {
    fate := FateOf(d, s, id, tokens, n - 1);
    NewcomersOneMore(d, s, id, tokens, n - 1);
  }

  ghost predicate ListedAsChanged(r: Lists, u: UserId, from: string) {
    exists i :: 0 <= i < |r.changed| && r.changed[i] == (u, from)
  }

  ghost predicate ListedAsAdded(r: Lists, u: UserId) {
    exists i :: 0 <= i < |r.added| && r.added[i] == u
  }

  /** A newcomer out of a cohort with a name is listed with that name; any other newcomer is listed as added. */
  ghost predicate Tells(s: State, id: CohortId, r: Lists, newcomers: set<UserId>)
    requires id in s.cohorts
  {
    && (forall u: UserId, from :: ListedAsChanged(r, u, from) <==>
          u in newcomers && PreviousName(s, id, u) == Some(from) && from != "")
    && (forall u: UserId :: ListedAsAdded(r, u) <==>
          u in newcomers && (PreviousName(s, id, u) == None || PreviousName(s, id, u) == Some("")))
  }

  lemma SortedListed(p: Lists, token: string, fate: Fate)
    ensures forall u: UserId, from :: ListedAsChanged(Sorted(p, token, fate), u, from) <==>
              ListedAsChanged(p, u, from) || fate == Changed(u, from)
    ensures forall u: UserId :: ListedAsAdded(Sorted(p, token, fate), u) <==> ListedAsAdded(p, u) || fate == Added(u)
  {
    var r := Sorted(p, token, fate);
    assert fate.Changed? ==> r.changed[|p.changed|] == (fate.user, fate.from);
    assert fate.Added? ==> r.added[|p.added|] == fate.user;
    assert forall i :: 0 <= i < |p.changed| ==> r.changed[i] == p.changed[i];
    assert forall i :: 0 <= i < |p.added| ==> r.added[i] == p.added[i];
  }

  /** The two lists of a whole batch, told from the table before it. */
  lemma {:induction false} ListsTellPreviousCohorts(d: Directory, s: State, id: CohortId, tokens: seq<string>, n: nat)
    requires n <= |tokens| && id in s.cohorts
    ensures Tells(s, id, Report(d, s, id, tokens, n), Newcomers(d, s, id, tokens, n))
  {
    if n == 0 {
      assert Newcomers(d, s, id, tokens, n) == {};
    } else {
      ListsTellPreviousCohorts(d, s, id, tokens, n - 1);
      SortedListed(Report(d, s, id, tokens, n - 1), tokens[n - 1], FateOf(d, s, id, tokens, n - 1));
      NewcomersOneMore(d, s, id, tokens, n - 1);
    }
  }

  /** Somebody named in the batch is in another cohort of the course, and its name is empty. */
  ghost predicate NamesUnnamed(d: Directory, s: State, id: CohortId, tokens: seq<string>)
    requires id in s.cohorts
  {
    exists k, u: UserId :: k != id && Holds(s, k, s.cohorts[id].course, u) && s.cohorts[k].name == "" &&
                           u in Resolved(d, tokens, |tokens|)
  }

  /**
    A batch reports every move between cohorts as one, with the cohort left, exactly when nobody it names
    is in an unnamed cohort: the code branches on the name's truth value.
   */
  lemma MovesReportedExactly(d: Directory, s: State, id: CohortId, tokens: seq<string>)
    requires Valid(s) && id in s.cohorts
    ensures var r, newcomers := Report(d, s, id, tokens, |tokens|), Newcomers(d, s, id, tokens, |tokens|);
            (forall u: UserId :: u in newcomers && PreviousName(s, id, u).Some? ==>
               ListedAsChanged(r, u, PreviousName(s, id, u).value))
            <==> !NamesUnnamed(d, s, id, tokens)
  {
    var c, newcomers := s.cohorts[id].course, Newcomers(d, s, id, tokens, |tokens|);
    ListsTellPreviousCohorts(d, s, id, tokens, |tokens|);
    forall k, u: UserId | Holds(s, k, c, u)
      ensures CohortOf(s, c, u) == Some(k) && (k != id <==> u !in s.cohorts[id].users)
    {
      LookupsAreSingle(s, k, c, u, "");
      if u in s.cohorts[id].users {
        LookupsAreSingle(s, id, c, u, "");
      }
    }
    if u: UserId :| u in newcomers && PreviousName(s, id, u) == Some("") {
      assert Holds(s, CohortOf(s, c, u).value, c, u);
    }
    if NamesUnnamed(d, s, id, tokens) {
      var k, u: UserId :| k != id && Holds(s, k, c, u) && s.cohorts[k].name == "" && u in Resolved(d, tokens, |tokens|);
      assert u in newcomers && PreviousName(s, id, u) == Some("");
    }
  }

  // ---------------------------------------------------------------- what the names in a batch mean

  /** The token is the user's e-mail address if it has an '@', and their username if not. */
  predicate IsNameOf(d: Directory, token: string, u: UserId) {
    if '@' in token then token in d.byEmail && d.byEmail[token] == u
    else token in d.byUsername && d.byUsername[token] == u
  }

  predicate IsNobodys(d: Directory, token: string) {
    if '@' in token then token !in d.byEmail else token !in d.byUsername
  }

  /** One of the first `n` tokens names the user. */
  ghost predicate NamedIn(d: Directory, tokens: seq<string>, n: nat, u: UserId)
    requires n <= |tokens|
  {
    exists i :: 0 <= i < n && tokens[i] != "" && IsNameOf(d, tokens[i], u)
  }

  lemma {:induction false} NamedMeansResolved(d: Directory, tokens: seq<string>, n: nat, u: UserId)
    requires n <= |tokens|
    ensures u in Resolved(d, tokens, n) <==> NamedIn(d, tokens, n, u)
  {
    if n > 0 {
      NamedMeansResolved(d, tokens, n - 1, u);
    }
  }

  /**
    After a batch a user is in the cohort exactly if they were before or the text has their username, or
    their e-mail address; those it names are in no other cohort of the course, and all else is as it was.
   */
  lemma BatchAddsNamed(d: Directory, s: State, c: CourseId, id: CohortId, tokens: seq<string>, u: UserId)
    requires Valid(s) && id in s.cohorts && s.cohorts[id].course == c
    ensures var t := Step(d, s, Batch(c, id, tokens));
            && t.cohorts.Keys == s.cohorts.Keys
            && (u in t.cohorts[id].users <==> u in s.cohorts[id].users || NamedIn(d, tokens, |tokens|, u))
            && forall k :: k in s.cohorts && k != id ==>
                 (u in t.cohorts[k].users <==>
                  u in s.cohorts[k].users && !(s.cohorts[k].course == c && NamedIn(d, tokens, |tokens|, u)))
  {
    NamedMeansResolved(d, tokens, |tokens|, u);
    forall k | k in s.cohorts && k != id && s.cohorts[k].course == c && u in s.cohorts[id].users
      ensures u !in s.cohorts[k].users
    {
      assert Holds(s, id, c, u);
      assert u in s.cohorts[k].users <==> Holds(s, k, c, u);
    }
  }

  /** Of the first `n` tokens, those that are nobody's name, in order. */
  function UnknownTokens(d: Directory, tokens: seq<string>, n: nat): seq<string>
    requires n <= |tokens|
  {
    if n == 0 then []
    else
      UnknownTokens(d, tokens, n - 1) +
      (if tokens[n - 1] != "" && IsNobodys(d, tokens[n - 1]) then [tokens[n - 1]] else [])
  }

  /** The token names a user who was in the cohort, or whom an earlier token names too. */
  ghost predicate NamesPresent(d: Directory, users: set<UserId>, tokens: seq<string>, i: nat)
    requires i < |tokens|
  {
    tokens[i] != "" && exists u: UserId :: IsNameOf(d, tokens[i], u) && (u in users || NamedIn(d, tokens, i, u))
  }

  /** Of the first `n` tokens, those that name users present already, in order. */
  ghost function PresentTokens(d: Directory, users: set<UserId>, tokens: seq<string>, n: nat): seq<string>
    requires n <= |tokens|
  {
    if n == 0 then []
    else
      PresentTokens(d, users, tokens, n - 1) + (if NamesPresent(d, users, tokens, n - 1) then [tokens[n - 1]] else [])
  }

  lemma FateByName(d: Directory, s: State, id: CohortId, tokens: seq<string>, i: nat)
    requires i < |tokens| && id in s.cohorts
    ensures FateOf(d, s, id, tokens, i).Unknown? <==> tokens[i] != "" && IsNobodys(d, tokens[i])
    ensures FateOf(d, s, id, tokens, i).Present? <==> NamesPresent(d, s.cohorts[id].users, tokens, i)
  {
    var user := Resolve(d, tokens[i]);
    forall u: UserId
      ensures IsNameOf(d, tokens[i], u) <==> user == Some(u)
    {
    }
    if user.Some? {
      NamedMeansResolved(d, tokens, i, user.value);
      assert IsNameOf(d, tokens[i], user.value);
    }
  }

  /** The tokens a batch reports as unknown are those that name nobody; as present, those that name somebody there. */
  lemma {:induction false} UnknownAndPresentExactly(d: Directory, s: State, id: CohortId, tokens: seq<string>, n: nat)
    requires n <= |tokens| && id in s.cohorts
    ensures Report(d, s, id, tokens, n).unknown == UnknownTokens(d, tokens, n)
    ensures Report(d, s, id, tokens, n).present == PresentTokens(d, s.cohorts[id].users, tokens, n)
  {
    if n > 0 {
      UnknownAndPresentExactly(d, s, id, tokens, n - 1);
      FateByName(d, s, id, tokens, n - 1);
    }
  }

  /** Each further token only adds to the end of a list, so every list is in the order of the tokens. */
  lemma ListsGrow(d: Directory, s: State, id: CohortId, tokens: seq<string>, n: nat)
    requires n < |tokens| && id in s.cohorts
    ensures var p, r := Report(d, s, id, tokens, n), Report(d, s, id, tokens, n + 1);
            p.added <= r.added && p.changed <= r.changed && p.present <= r.present && p.unknown <= r.unknown
  {
  }

  lemma PreviousNameExactly(s: State, id: CohortId, u: UserId)
    requires Valid(s) && id in s.cohorts
    ensures var c := s.cohorts[id].course;
            && (forall name :: PreviousName(s, id, u) == Some(name) <==>
                               exists k :: Holds(s, k, c, u) && s.cohorts[k].name == name)
            && (PreviousName(s, id, u) == None <==> forall k :: !Holds(s, k, c, u))
  {
    var c := s.cohorts[id].course;
    forall k | Holds(s, k, c, u)
      ensures PreviousName(s, id, u) == Some(s.cohorts[k].name)
    {
      LookupsAreSingle(s, k, c, u, "");
    }
    if PreviousName(s, id, u).Some? {
      assert Holds(s, CohortOf(s, c, u).value, c, u);
    }
  }

  /** Some cohort of the course that has the user is called that. */
  ghost predicate ComesFrom(s: State, c: CourseId, u: UserId, name: string) {
    exists k :: Holds(s, k, c, u) && s.cohorts[k].name == name
  }

  /**
    Of those the text names and the cohort did not have, the ones out of a cohort with a name are listed as
    changed, under that name, and all others as added.
   */
  lemma MovesTold(d: Directory, s: State, id: CohortId, tokens: seq<string>, n: nat, u: UserId, from: string)
    requires Valid(s) && n <= |tokens| && id in s.cohorts
    ensures var r, c := Report(d, s, id, tokens, n), s.cohorts[id].course;
            var comes := u !in s.cohorts[id].users && NamedIn(d, tokens, n, u);
            && (ListedAsChanged(r, u, from) <==> comes && from != "" && ComesFrom(s, c, u, from))
            && (ListedAsAdded(r, u) <==> comes && forall name :: ComesFrom(s, c, u, name) ==> name == "")
  {
    ListsTellPreviousCohorts(d, s, id, tokens, n);
    NamedMeansResolved(d, tokens, n, u);
    PreviousNameExactly(s, id, u);
    assert forall name :: ComesFrom(s, s.cohorts[id].course, u, name) <==> PreviousName(s, id, u) == Some(name);
  }

  // ---------------------------------------------------------------- what the other operations do

  /** A user removed from a cohort is in none of the course's; nobody else moves, and no other course is touched. */
  lemma RemovedUserIsOut(d: Directory, s: State, c: CourseId, id: CohortId, username: string, u: UserId,
                         course: CourseId)
    requires Valid(s) && username in d.byUsername && id in s.cohorts && s.cohorts[id].course == c
    ensures CohortOf(Step(d, s, Remove(c, id, username)), course, u) ==
            if u == d.byUsername[username] && CohortOf(s, course, u) == Some(id) then None else CohortOf(s, course, u)
  {
    var op := Remove(c, id, username);
    var t := Step(d, s, op);
    StepIsValid(d, s, op);
    forall k: CohortId
      ensures Holds(t, k, course, u) <==> Holds(s, k, course, u) && !(k == id && u == d.byUsername[username])
    {
    }
    SameHolders(s, t, course, u, if u == d.byUsername[username] then Some(id) else None);
  }

  /** If a user is still where they were but for one cohort, their cohort is as it was unless it was that one. */
  lemma SameHolders(s: State, t: State, c: CourseId, u: UserId, but: Option<CohortId>)
    requires Valid(s) && Valid(t)
    requires forall k: CohortId :: Holds(t, k, c, u) <==> Holds(s, k, c, u) && Some(k) != but
    ensures CohortOf(t, c, u) == if but.Some? && CohortOf(s, c, u) == but then None else CohortOf(s, c, u)
  {
    if CohortOf(s, c, u).Some? {
      var k := CohortOf(s, c, u).value;
      assert Holds(s, k, c, u);
      if Some(k) != but {
        LookupsAreSingle(t, k, c, u, "");
      }
    }
  }

  /** Adding a cohort to a course that exists: there is one of that name, empty if it is new, and all others stay. */
  lemma AddedCohortIsThere(d: Directory, s: State, c: CourseId, name: string)
    requires Valid(s)
    ensures var t := Step(d, s, Add(c, name, true));
            && (forall k :: k in s.cohorts ==> k in t.cohorts && t.cohorts[k] == s.cohorts[k])
            && (exists k :: Named(t, k, c, name))
            && (forall k :: k in t.cohorts && k !in s.cohorts ==>
                  t.cohorts[k] == Cohort(c, name, {}) && forall other :: !Named(s, other, c, name))
    ensures Step(d, s, Add(c, name, false)) == s
  {
    EnsuredIsValid(s, c, name);
    var t := Step(d, s, Add(c, name, true));
    assert Named(t, Find(t, c, name).value, c, name);
  }

  /** Every cohort of the table that was not in the other is a new, empty one of the course with one of these names. */
  ghost predicate OnlyNewOf(s: State, t: State, c: CourseId, names: seq<string>) {
    forall k :: k in t.cohorts && k !in s.cohorts ==>
      t.cohorts[k].course == c && t.cohorts[k].users == {} &&
      exists i :: 0 <= i < |names| && names[i] == t.cohorts[k].name
  }

  lemma {:induction false} EnsuredOnlyNew(s: State, c: CourseId, names: seq<string>)
    requires Valid(s)
    ensures OnlyNewOf(s, EnsuredFrom(s, c, names), c, names)
    decreases |names|
  {
    if names != [] {
      var e := Ensured(s, c, names[0]);
      var t := EnsuredFrom(s, c, names);
      EnsuredIsValid(s, c, names[0]);
      EnsuredFromKeeps(e, c, names[1..]);
      EnsuredOnlyNew(e, c, names[1..]);
      forall k | k in t.cohorts && k !in s.cohorts
        ensures t.cohorts[k].course == c && t.cohorts[k].users == {}
        ensures exists i :: 0 <= i < |names| && names[i] == t.cohorts[k].name
      {
        if k in e.cohorts {
          assert names[0] == t.cohorts[k].name;
        } else {
          var i :| 0 <= i < |names[1..]| && names[1..][i] == t.cohorts[k].name;
          assert names[i + 1] == t.cohorts[k].name;
        }
      }
    }
  }

  /** Listing a course's cohorts creates exactly the automatic ones it lacks, and none if it has no automatic ones. */
  lemma ListingCreatesAutomatic(d: Directory, s: State, c: CourseId, settings: Settings)
    requires Valid(s)
    ensures var t := Step(d, s, ListAll(c, settings));
            if !settings.auto then t == s
            else
              && (forall k :: k in s.cohorts ==> k in t.cohorts && t.cohorts[k] == s.cohorts[k])
              && OnlyNewOf(s, t, c, settings.groups)
              && forall i :: 0 <= i < |settings.groups| ==> Find(t, c, settings.groups[i]).Some?
  {
    EnsuredFromKeeps(s, c, settings.groups);
    EnsuredOnlyNew(s, c, settings.groups);
  }

  /** Deleting takes away exactly the course's cohort of that name, and only if nobody is in it. */
  lemma DeleteTakesEmptyOnly(d: Directory, s: State, c: CourseId, name: string, k: CohortId)
    requires Valid(s)
    ensures var t := Step(d, s, Delete(c, name));
            && (k in t.cohorts <==> k in s.cohorts && !(Named(s, k, c, name) && s.cohorts[k].users == {}))
            && (k in t.cohorts ==> t.cohorts[k] == s.cohorts[k])
  {
    if Named(s, k, c, name) {
      LookupsAreSingle(s, k, c, 0, name);
    }
    if Find(s, c, name).Some? {
      assert Named(s, Find(s, c, name).value, c, name);
    }
  }

  /**
    Asking for a cohort changes nothing if the user has one, or the course is missing, not cohorted, not
    automatic or without groups.
   */
  lemma GetLeavesAlone(s: State, c: CourseId, u: UserId, settings: Option<Settings>, pick: nat)
    requires Valid(s)
    requires CohortOf(s, c, u).Some? || settings.None? || !settings.value.cohorted || !settings.value.auto ||
             settings.value.groups == []
    ensures Assigned(s, c, u, settings, pick) == s
  {
  }

  /** Asking for a cohort moves nobody else: each cohort there was keeps all its other users, and a new one has none. */
  lemma GetMovesOnlyThem(s: State, c: CourseId, u: UserId, settings: Option<Settings>, pick: nat, k: CohortId)
    requires Valid(s)
    ensures var t := Assigned(s, c, u, settings, pick);
            && (k in s.cohorts ==>
                  && k in t.cohorts && t.cohorts[k].course == s.cohorts[k].course
                  && t.cohorts[k].name == s.cohorts[k].name
                  && t.cohorts[k].users - {u} == s.cohorts[k].users - {u}
                  && (s.cohorts[k].course != c ==> t.cohorts[k] == s.cohorts[k]))
            && (k in t.cohorts && k !in s.cohorts ==> t.cohorts[k].course == c && t.cohorts[k].users <= {u})
  {
    if Assigned(s, c, u, settings, pick) != s {
      var name := AutoName(settings.value, pick).value;
      EnsuredIsValid(s, c, name);
      assert Named(Ensured(s, c, name), Find(Ensured(s, c, name), c, name).value, c, name);
    }
  }

  /** Every automatic group is one the random choice can fall on. */
  lemma AnyGroupMayBePicked(s: State, c: CourseId, u: UserId, settings: Settings, i: nat)
    requires Valid(s) && settings.cohorted && settings.auto && i < |settings.groups| && CohortOf(s, c, u).None?
    ensures var t := Assigned(s, c, u, Some(settings), i);
            CohortOf(t, c, u).Some? && t.cohorts[CohortOf(t, c, u).value].name == settings.groups[i]
  {
    var name := settings.groups[i];
    assert i % |settings.groups| == i;
    var e := Ensured(s, c, name);
    EnsuredIsValid(s, c, name);
    var id := Find(e, c, name).value;
    assert Named(e, id, c, name);
    GatheredIsValid(e, id, {u});
    var t := Gathered(e, id, {u});
    assert Holds(t, id, c, u);
    LookupsAreSingle(t, id, c, u, "");
  }

  lemma RunTwo(d: Directory, s: State, first: Op, second: Op)
    requires Valid(s) && Valid(Step(d, s, first))
    ensures Run(d, s, [first] + [second]) == Step(d, Step(d, s, first), second)
  {
    assert ([first] + [second])[..1] == [first] && [first][..0] == [];
    assert Run(d, s, []) == s;
  }

  lemma AutomaticCohort(s: State, u: UserId, op: Op)
    requires s == State(map[], 0) && Valid(s) && op == Get(0, u, Some(Settings(true, true, [""])), 0)
    ensures Assigned(s, 0, u, op.settings, op.pick) == State(map[0 := Cohort(0, "", {u})], 1)
  {
    var t := State(map[0 := Cohort(0, "", {})], 1);
    assert CohortOf(s, 0, u).None? && Find(s, 0, "").None?;
    assert Ensured(s, 0, "") == t;
    EnsuredIsValid(s, 0, "");
    assert Named(t, 0, 0, "");
    LookupsAreSingle(t, 0, 0, u, "");
    assert {} + {u} == {u};
    assert Gathered(t, 0, {u}).cohorts == map[0 := Cohort(0, "", {u})];
  }

  lemma SecondCohort(s: State, t: State, u: UserId, name: string)
    requires s == State(map[0 := Cohort(0, "", {u})], 1) && name != ""
    requires t == State(map[0 := Cohort(0, "", {u}), 1 := Cohort(0, name, {})], 2)
    ensures Ensured(s, 0, name) == t
  {
    assert Find(s, 0, name).None?;
  }

  lemma MoveOfOne(d: Directory, s: State, token: string, u: UserId)
    requires token != "" && Resolve(d, token) == Some(u) && Valid(s)
    requires 0 in s.cohorts && Holds(s, 0, 0, u) && s.cohorts[0].name == ""
    requires 1 in s.cohorts && s.cohorts[1].course == 0
    ensures CohortOf(s, 0, u) == Some(0) && CohortOf(Step(d, s, Batch(0, 1, [token])), 0, u) == Some(1)
    ensures Report(d, s, 1, [token], 1) == Lists([u], [], [], [])
  {
    LookupsAreSingle(s, 0, 0, u, "");
    assert Resolved(d, [token], 1) == {u};
    assert Holds(s, 1, 0, u) <==> u in s.cohorts[1].users;
    BatchPlacesEveryone(d, s, 0, 1, [token], u, 0);
  }

  /** A course whose one automatic cohort is unnamed: moving a user out of it is reported as an addition. */
  lemma UnnamedMoveIsReportedAsAddition(d: Directory, token: string, u: UserId, name: string) returns (s: State)
    requires token != "" && Resolve(d, token) == Some(u) && name != ""
    ensures Valid(s)
    ensures s == Run(d, EMPTY, [Get(0, u, Some(Settings(true, true, [""])), 0)] + [Add(0, name, true)])
    ensures 1 in s.cohorts && s.cohorts[1].course == 0 && CohortOf(s, 0, u) == Some(0)
    ensures CohortOf(Step(d, s, Batch(0, 1, [token])), 0, u) == Some(1)
    ensures Report(d, s, 1, [token], 1) == Lists([u], [], [], [])
  {
    s := UnnamedCohortRun(d, Get(0, u, Some(Settings(true, true, [""])), 0), Add(0, name, true));
    MoveOfOne(d, s, token, u);
  }

  const EMPTY := State(map[], 0)

  lemma UnnamedCohortRun(d: Directory, get: Op, add: Op) returns (s: State)
    requires get.Get? && get == Get(0, get.user, Some(Settings(true, true, [""])), 0)
    requires add.Add? && add == Add(0, add.name, true) && add.name != ""
    ensures s == State(map[0 := Cohort(0, "", {get.user}), 1 := Cohort(0, add.name, {})], 2)
    ensures Valid(s) && s == Run(d, EMPTY, [get] + [add])
  {
    var first := State(map[0 := Cohort(0, "", {get.user})], 1);
    s := State(map[0 := Cohort(0, "", {get.user}), 1 := Cohort(0, add.name, {})], 2);
    assert Valid(EMPTY);
    AutomaticCohort(EMPTY, get.user, get);
    StepIsValid(d, EMPTY, get);
    StepIsValid(d, first, add);
    SecondCohort(first, s, get.user, add.name);
    RunTwo(d, EMPTY, get, add);
  }
}
