# Verified models of the platform's stateful components

The platform is a Django application. Most of it is views and settings; the components below keep
state over time, and each of them promises something about every run of its operations. Each is modelled
in one Dafny file: a class whose fields are the tables and caches and whose methods are the operations,
written step by step as the Python code is, and proved against a specification function on plain values.
The promises are then proved of that function over all runs, as lemmas.

| file | component |
|---|---|
| LoginLockout.dfy | failed-login counters and the lockout, as `login_user` drives them, for all users at once |
| PasswordHistory.dfy | the reuse and spacing policies of password resets |
| Enrollment.dfy | enrollment rows and the event log |
| CourseUpdates.dfy | the list of course updates, its page, and the migration from the old page format |
| Cohorts.dfy | cohorts, the batch form, and the random first assignment |
| Roles.dfy | the role table and the `_roles` cache of each user object |
| CourseCreators.dfy | the course-creator table, its self-saving signal handler, and the group it keeps |
| XmlCleanup.dfy | legal and unique names for course XML |
| ConfigCache.dfy | the configuration cache, by whole calls and by interleaved steps |
| InstanceCache.dfy | the cache of model rows shared by all models |
| InstanceRace.dfy | one cached row under interleaved lookups and writes |
| EmailChange.dfy | email changes in a transaction with commit and rollback |
| MonkeyPatch.dfy | patches linked through the heap, and the translation patch |
| Ancestors.dfy | where a block's release date and staff lock come from |
| ForumRoles.dfy | seeding a course's forum roles |
| Decimal.dfy, Sequences.dfy, Wrappers.dfy | decimal text of numbers; reversal; optional values |

`dafny verify dfyconfig.toml` checks the whole project.

## What the proofs found

Most promises hold as stated. What every operation leaves and answers is also told without the specification
functions: from the tables before it, the settings, and over runs from the requests themselves. That shows, for one,
that a correct password clears the failure counter even when the account is not active and nobody is logged in
(student/views.py:990-1078): failures are counted since the last proof of identity, not the last login.

These promises hold under a condition, and the condition is proved to be exact:

- **Reuse of passwords.** Every password differs from as many before it as the limit in force when it was set
  asks, on all runs, exactly when the password hasher is one of the two the check recognises; an unrecognised
  one lets every password through (student/models.py:513-520). The user's present limit holds of all their
  passwords exactly when, besides, staff and students have the same limit: promotion and demotion
  (student/roles.py:75-86) put old passwords under a limit they were not set under.
- **Enrollment log.** An exception in a receiver of the unenrollment signal leaves the row changed and the
  event unsent (student/models.py:726-728). The log of an enrollment is faithful exactly when that never happened,
  and a course's events balance up to the number of times it did. The present mode is the last one logged
  exactly when the last unlogged change of mode since then is absent or restored it.
- **Per-mode counts.** They add up to the total exactly when no active enrollment has a mode called "total".
- **Old course-update pages.** Ids are positions plus one exactly when the entries without a child element
  are the newest ones. That every entry has a child element is enough but not necessary. Under the same
  condition, and only then, reading an id off the old page finds the update that editing it would change.
- **Update ids.** No run ever uses an id twice exactly when, at the start, ids are distinct and none is above the
  number of updates (course_info_model.py:69-70); for an old page that is the condition above. With an empty
  entry between two others, one addition gives the ids 1, 3, 3.
- **Moves between cohorts.** A batch reports every move as one exactly when nobody it names is in a cohort of the
  course whose name is empty: the code branches on the name's truth value (course_groups/views.py:190).
- **Role cache.** `add_course` stopped by a row that already exists keeps the user's cache although rows went
  in before it (student/roles.py:271-275). All through a run every check answers as the table does exactly when
  no such call happens.
- **Course creators.** Table and group agree all through a run exactly when no grant is made by somebody without
  authority or to an inactive user, and no revocation by somebody without authority: the row is written first.
- **Configuration cache.** Under interleaving, what `current()` returns is still the newest entry exactly when every
  entry inserted after the query that read it has an earlier date. A save reads the clock before it inserts, so of
  two that overlap the last to insert need not be the newest. The value was newest less than the timeout
  plus the slowest reader's delay ago, and for every timeout and delay a run comes that close to the bound.
- **Cached rows under concurrency.** The same bound holds for `get_instance`, and a row deleted under a lookup may be
  found for that long; a row is never said to be missing that is there. Lookups that do not overlap with writes are
  exact.
- **Cached rows.** A lookup finds what is stored unless it hits an entry written by another release that lacks a
  field, and the field does not have its default in the row (cache_toolbox/core.py:43): exactly then it finds the
  row with the default instead. With entries of this release only, it is always exact.
- **Replaced patches.** Patching an attribute leaves it with a way back to an original exactly when the replacement
  is not on its chain; otherwise no number of unpatches gets there. Another attribute keeps its chain exactly
  when the replacement is not on it, or stands just above the patched function there.
- **Names in XML.** Each new name is the least free one, so the document and the names taken before it determine all
  names. They are unique in each category exactly when no node without a `name` comes with a `url_name` that an
  earlier node is left with: only nodes with a `name` are renamed (xml_cleanup.py:65-72).
- **Staff lock source.** The docstring (contentstore/utils.py:201-204) says a block is returned only if it locks. The code
  also returns a block that is explicitly unlocked, and looks no higher than the chapter. The docstring is right
  exactly when the nearest setting on the way to the chapter locks, or there is none and nothing above locks.
- **Seeding.** The seeded check succeeds after seeding exactly when the course exists and allows posting.

## Conventions

Tables are maps, sets or sequences, ids are natural numbers, the clock is an integer a caller passes or
advances, and exceptions are values of a response type. Random choices, answers of the authentication
backend, success of mails and of database writes, and the order in which the database lists groups are
parameters of the operation that meets them. Each database write takes effect when it is made; where the
code manages its transaction itself (email change) commit and rollback are modelled, and the rollback that
the request middleware adds around other views is not. A user has one live object. `make_password` with one
salt is taken as injective.

## Model

| member | source | states |
|---|---|---|
| LoginLockout.LoginFailures.LoginUser | common/djangoapps/student/views.py:857-1078 | the response and the counters after one login, through every early return of the view |
| LoginLockout.LoginFailures.IncrementLockoutCounter | common/djangoapps/student/models.py:562-577 | one more failure; from the maximum on, locked until a period from now |
| LoginLockout.LoginFailures.IsUserLockedOut | common/djangoapps/student/models.py:545-560 | locked exactly while the recorded time is in the future |
| LoginLockout.CounterIsFailuresSinceSuccess | common/djangoapps/student/models.py:544-587 | over every run of all users' logins, a user's row counts the failures since they last proved who they are, told from the requests alone, and is locked exactly from the maximum on |
| LoginLockout.KnownUserAnsweredExactly | common/djangoapps/student/views.py:930-1078 | after every run, when a known user is logged in, failed, throttled, locked out, expired, redirected or told to activate, each told from the request and the times of earlier failures |
| LoginLockout.UnknownUserAnsweredExactly | common/djangoapps/student/views.py:930-983 | nobody logs in to an account that is not there; what is answered instead, and that no counter moves |
| LoginLockout.NextFailureWaits | common/djangoapps/student/models.py:562-577 | a failure past the maximum comes at least one period after the one before |
| LoginLockout.FailuresAreSpaced | common/djangoapps/student/models.py:562-577 | failures m and n, past the maximum, are at least n - m periods apart |
| PasswordHistory.PasswordStore.RecordPassword | common/djangoapps/student/models.py:358-373 | a change is recorded exactly if any policy is on |
| PasswordHistory.PasswordStore.IsPasswordResetTooSoon | common/djangoapps/student/models.py:463-480 | whole days since the user's newest entry, against the policy |
| PasswordHistory.PasswordStore.IsAllowablePasswordReuse | common/djangoapps/student/models.py:482-525 | the loop over the newest entries decides the reuse policy, unknown algorithms included |
| PasswordHistory.PasswordStore.ResetPassword | common/djangoapps/student/views.py:1754-1840 | a reset changes and records the password only if every policy lets it; a refusal of staff under the student limit fails if the staff setting is absent |
| PasswordHistory.ResetTakesExactly | common/djangoapps/student/views.py:1754-1840 | after every run, a reset sets the new password under the drawn salt if and only if link and form are accepted, it is not weak, not among the latest held that the settings name, and late enough after the last; otherwise nothing changes |
| PasswordHistory.ReuseRespectedExactly | common/djangoapps/student/models.py:482-525 | over every run and policy, the reuse check in terms of the settings and the passwords held |
| PasswordHistory.SpacingRespectedExactly | common/djangoapps/student/models.py:463-480 | over every run, the spacing check in terms of the settings and the times at which passwords were set |
| PasswordHistory.SettingMissedExactly | common/djangoapps/student/views.py:1784-1794 | when the answer breaks off for want of the staff limit |
| PasswordHistory.PasswordStore.CreateAccount | common/djangoapps/student/views.py:1229-1249 | a new account, not staff, with its password recorded; an existing one is untouched |
| PasswordHistory.CreateTakesExactly | common/djangoapps/student/views.py:1229-1249 | after every run, a new account has the password, is not staff, and is recorded exactly if some policy is set |
| PasswordHistory.PasswordStore.SetStaffFlag | common/djangoapps/student/roles.py:75-86 | promotion or demotion changes the flag and nothing else |
| PasswordHistory.HistoryIsPasswordsHeld | common/djangoapps/student/views.py:1831-1834 | over every run, a user's entries are exactly the passwords they have held, in order |
| PasswordHistory.ReuseCheckIsExact | common/djangoapps/student/models.py:482-525 | over every run, the check refuses a password exactly when it is among the user's latest ones |
| PasswordHistory.NoReuseWithinLimitInForce | common/djangoapps/student/models.py:482-525 | over every run, promotions included, a password differs from as many before it as the limit in force when it was set |
| PasswordHistory.LimitInForceEnforcedExactly | common/djangoapps/student/models.py:504-520 | the limits in force are kept on all runs if and only if the hasher is a recognised one |
| PasswordHistory.PresentLimitEnforcedExactly | common/djangoapps/student/models.py:489-520 | the present limit holds of all passwords on all runs if and only if there is none, or the hasher is recognised and staff and students have the same |
| PasswordHistory.PromotionBreaksWindow | common/djangoapps/student/models.py:489-496 | a run in which a change of staff status leaves equal passwords within the limit |
| PasswordHistory.UnlistedHasherReuses | common/djangoapps/student/models.py:513-520 | a run that sets the same password twice under an unrecognised hasher |
| PasswordHistory.ChangesAreSpaced | common/djangoapps/student/models.py:463-480 | over every run, consecutive recorded changes are at least the configured days apart |
| PasswordHistory.EntriesComeInTimeOrder | common/djangoapps/student/models.py:499-501 | insertion order is time order, so the newest-first query is the reversed list |
| Enrollment.Enrollments.GetOrCreateEnrollment | common/djangoapps/student/models.py:626-664 | an inactive row in mode "honor" if there was none |
| Enrollment.Enrollments.UpdateEnrollment | common/djangoapps/student/models.py:688-739 | row and events after a change, and after a receiver's exception |
| Enrollment.Enrollments.EnrollUser | common/djangoapps/student/models.py:778-802 | create, then activate and set the mode |
| Enrollment.Enrollments.UnenrollUser | common/djangoapps/student/models.py:843-860 | deactivate, or report that there is no row |
| Enrollment.EnrollLeaves | common/djangoapps/student/models.py:778-802 | in every state: an active row in the mode asked for, else in its own, else "honor"; no other row changes |
| Enrollment.UnenrollLeaves | common/djangoapps/student/models.py:843-860 | an existing row inactive in its mode, whatever a receiver does; no other row changes |
| Enrollment.UpdateLeaves | common/djangoapps/student/models.py:688-713 | the values asked for, the others kept; no other row changes |
| Enrollment.GetOrCreateLeaves | common/djangoapps/student/models.py:626-664 | a new row inactive in "honor", an existing one alone |
| Enrollment.RowIsLastAsked | common/djangoapps/student/models.py:626-860 | over every run, which enrollments there are, and that mode and activity are those last asked for |
| Enrollment.StepEmits | common/djangoapps/student/models.py:715-739 | the events of every step, told from the rows before and after it |
| Enrollment.Enrollments.EnrollmentCounts | common/djangoapps/student/models.py:956-969 | the total is the number enrolled, and every other mode has its own count |
| Enrollment.GroupsAddUp | common/djangoapps/student/models.py:667-675 | the grouped counts add up to the number of active rows |
| Enrollment.ModesAddUpExactly | common/djangoapps/student/models.py:956-969 | the reported per-mode counts add up if and only if no mode is called "total" |
| Enrollment.CourseBalance | common/djangoapps/student/models.py:688-739 | over every run, a course's activations are its deactivations plus those enrolled plus the events lost |
| Enrollment.ActivationsBalance | common/djangoapps/student/models.py:688-739 | the same for one user and course |
| Enrollment.LogFaithfulExactly | common/djangoapps/student/models.py:715-735 | events alternate and end on the present state if and only if none was lost |
| Enrollment.ModeIsLastLoggedExactly | common/djangoapps/student/models.py:736-739 | the present mode is that of the last mode event, "honor" before any, if and only if the last unlogged change since is absent or restored it |
| Enrollment.ReceiverLosesMode | common/djangoapps/student/models.py:725-739 | a run whose change of mode is not logged |
| Enrollment.ReceiverLosesEvent | common/djangoapps/student/models.py:725-728 | a run in which the log says a user is active who has left |
| CourseUpdates.CourseInfo.GetCourseUpdateItems | cms/djangoapps/contentstore/course_info_model.py:170-216 | the answer in either format, with or without an id |
| CourseUpdates.CourseInfo.ParseOldItems | cms/djangoapps/contentstore/course_info_model.py:196-216 | the loop over an old page's entries |
| CourseUpdates.CourseInfo.GetHtml | cms/djangoapps/contentstore/course_info_model.py:219-228 | the page lists the visible updates, newest first |
| CourseUpdates.CourseInfo.GetCourseUpdates | cms/djangoapps/contentstore/course_info_model.py:31-42 | visible updates, one update, or not found; creates the item if missing |
| CourseUpdates.CourseInfo.UpdateCourseUpdates | cms/djangoapps/contentstore/course_info_model.py:45-82 | adds or edits an update and saves list and page; refuses a bad id |
| CourseUpdates.CourseInfo.DeleteCourseUpdate | cms/djangoapps/contentstore/course_info_model.py:126-154 | marks an update deleted and saves; refuses a bad id |
| CourseUpdates.IndexOfIdText | cms/djangoapps/contentstore/course_info_model.py:157-167 | any prefix, a slash and a decimal number read back as the number |
| CourseUpdates.IndexOfEnding | cms/djangoapps/contentstore/course_info_model.py:157-167 | the number a text ends in is read without a slash too, and before a newline |
| CourseUpdates.NoNumberNoIndex | cms/djangoapps/contentstore/course_info_model.py:157-167 | a text that ends in no digit names no update |
| CourseUpdates.DateIsFirstHeader | cms/djangoapps/contentstore/course_info_model.py:201-209 | the date of an old update is the text of its first `h2` |
| CourseUpdates.ContentGrows | cms/djangoapps/contentstore/course_info_model.py:85-95 | each further element of an old entry adds its markup at the end of the content |
| CourseUpdates.OldPageListsEntry | cms/djangoapps/contentstore/course_info_model.py:196-216 | an old page lists one update per entry with an element, with its date, content and place from the end, above those of the entries below |
| CourseUpdates.GetWithoutIdLists | cms/djangoapps/contentstore/course_info_model.py:31-42 | reading without an id lists everything visible, newest first, and creates a missing item |
| CourseUpdates.GetUnknownId | cms/djangoapps/contentstore/course_info_model.py:170-216 | an id nothing has lists everything from a saved list and nothing from an old page |
| CourseUpdates.RefusedExactly | cms/djangoapps/contentstore/course_info_model.py:57-66 | when an edit or a deletion is refused, and that it then changes nothing but may create the item |
| CourseUpdates.AddedStored | cms/djangoapps/contentstore/course_info_model.py:68-78 | the list saved by an addition: every update there was, then the new one |
| CourseUpdates.EditStored | cms/djangoapps/contentstore/course_info_model.py:57-67 | the list saved by an edit: that update under its id and status with the new values, every other as it was |
| CourseUpdates.DeletedStored | cms/djangoapps/contentstore/course_info_model.py:142-150 | the list saved by a deletion: that update with only its status changed, every other as it was |
| CourseUpdates.RunExtends | cms/djangoapps/contentstore/course_info_model.py:45-154 | over every run, the id at a position never changes and deleted updates stay deleted |
| CourseUpdates.IdsNeverReusedExactly | cms/djangoapps/contentstore/course_info_model.py:68-75 | no run uses an id twice if and only if ids are distinct and none is above the number of updates |
| CourseUpdates.PageIdsNeverReusedExactly | cms/djangoapps/contentstore/course_info_model.py:68-75 | on an old page, if and only if its empty entries are the newest |
| CourseUpdates.GapReusesId | cms/djangoapps/contentstore/course_info_model.py:68-75 | a page with a gap on which the first addition uses an id again |
| CourseUpdates.DeletedStaysHidden | cms/djangoapps/contentstore/course_info_model.py:109-122 | over every run, a deleted update is never found by its id again |
| CourseUpdates.PageStaysCurrent | cms/djangoapps/contentstore/course_info_model.py:219-242 | over every run, the stored page renders exactly the listed updates in their order |
| CourseUpdates.DeleteAnswersOldestFirst | cms/djangoapps/contentstore/course_info_model.py:143-152 | deleting answers with exactly the updates listed afterwards, in the opposite order |
| CourseUpdates.MigratedIdsExactly | cms/djangoapps/contentstore/course_info_model.py:199-209 | an old page's ids are positions plus one if and only if its empty entries are the newest |
| CourseUpdates.ContiguityIsInherited | cms/djangoapps/contentstore/course_info_model.py:68-75 | no run makes or breaks contiguous ids |
| CourseUpdates.AddingShowsNewThenOld | cms/djangoapps/contentstore/course_info_model.py:68-78 | adding, to either format, shows the new update above exactly the old ones |
| CourseUpdates.EditReadsBack | cms/djangoapps/contentstore/course_info_model.py:58-67 | an edit through an id text is what the same id text reads, unless deleted |
| CourseUpdates.DeletingHidesOnlyIt | cms/djangoapps/contentstore/course_info_model.py:143-152 | deleting hides that update and no other |
| CourseUpdates.OldReadsAgreeExactly | cms/djangoapps/contentstore/course_info_model.py:199-214 | on an old page, reading and editing by id agree under the same condition, and only then |
| Cohorts.SplitJoin | common/djangoapps/course_groups/views.py:30-34 | names with any commas and whitespace between them split back into the same names |
| Cohorts.SeparatorsExactly | common/djangoapps/course_groups/views.py:30-34 | commas and the six ASCII whitespace characters, and no others |
| Cohorts.SplitTrailing | common/djangoapps/course_groups/views.py:30-34 | separators after the last name give one empty token |
| Cohorts.CohortTable.GetCohort | common/djangoapps/course_groups/cohorts.py:104-160 | the user's cohort, or a random automatic one, created if needed |
| Cohorts.CohortTable.GetCourseCohorts | common/djangoapps/course_groups/cohorts.py:163-188 | creates the automatic cohorts and lists the course's cohorts |
| Cohorts.CohortTable.AddCohort | common/djangoapps/course_groups/cohorts.py:217-237 | a new empty cohort, unless the name is taken or the course missing |
| Cohorts.CohortTable.AddUserToCohort | common/djangoapps/course_groups/cohorts.py:247-280 | moves the user in from wherever they were, and reports from where |
| Cohorts.CohortTable.AddUsersToCohort | common/djangoapps/course_groups/views.py:166-204 | the batch loop equals the fates decided by the table before it |
| Cohorts.CohortTable.RemoveUserFromCohort | common/djangoapps/course_groups/views.py:223-236 | takes the user out, or reports what was missing |
| Cohorts.CohortTable.DeleteEmptyCohort | common/djangoapps/course_groups/cohorts.py:283-293 | deletes a cohort only if it is empty |
| Cohorts.EveryNameReported | common/djangoapps/course_groups/views.py:179-198 | every non-empty token lands in exactly one list |
| Cohorts.MovedExactly | common/djangoapps/course_groups/views.py:183-194 | those added or changed are exactly the newcomers, each once |
| Cohorts.ListsTellPreviousCohorts | common/djangoapps/course_groups/views.py:183-194 | changed holds exactly the newcomers out of a named cohort, with its name; added exactly the other newcomers |
| Cohorts.MovesReportedExactly | common/djangoapps/course_groups/views.py:190-194 | a batch reports every move as one if and only if nobody it names is in another cohort with an empty name |
| Cohorts.UnnamedMoveIsReportedAsAddition | common/djangoapps/course_groups/views.py:190-194 | a run that reports a move as an addition |
| Cohorts.BatchPlacesEveryone | common/djangoapps/course_groups/cohorts.py:265-280 | after a batch everyone named is in this cohort and no other of the course, and nobody else moved |
| Cohorts.BatchAddsNamed | common/djangoapps/course_groups/cohorts.py:262-280 | after a batch a user is in the cohort if and only if they were, or a token without "@" is their username, or one with "@" their e-mail address; nobody else moved |
| Cohorts.UnknownAndPresentExactly | common/djangoapps/course_groups/views.py:195-198 | the two lists, in order, told from the directory's two maps and the table before |
| Cohorts.MovesTold | common/djangoapps/course_groups/views.py:183-194 | of those the text names, who is listed as changed and from where, and who as added |
| Cohorts.ListsGrow | common/djangoapps/course_groups/views.py:179-198 | each list is in the order of the tokens |
| Cohorts.RemovedUserIsOut | common/djangoapps/course_groups/views.py:223-236 | a removed user is in none of the course's cohorts, and nobody else moves |
| Cohorts.AddedCohortIsThere | common/djangoapps/course_groups/cohorts.py:217-237 | a cohort of that name, empty if new; all others stay |
| Cohorts.ListingCreatesAutomatic | common/djangoapps/course_groups/cohorts.py:163-188 | listing creates exactly the automatic cohorts the course lacks |
| Cohorts.DeleteTakesEmptyOnly | common/djangoapps/course_groups/cohorts.py:283-293 | exactly the course's cohort of that name goes, and only if empty |
| Cohorts.StepIsValid | common/djangoapps/course_groups/models.py:10-18 | every operation keeps users in one cohort per course and names unique |
| Cohorts.LookupsAreSingle | common/djangoapps/course_groups/cohorts.py:130-136 | under that invariant both single-row lookups have one answer |
| Cohorts.CohortIsSticky | common/djangoapps/course_groups/cohorts.py:130-136 | over every run, a cohort is kept until an explicit move or removal |
| Cohorts.GetAssigns | common/djangoapps/course_groups/cohorts.py:138-160 | an automatic cohort is assigned once, whatever is picked later |
| Cohorts.AnyGroupMayBePicked | common/djangoapps/course_groups/cohorts.py:138-160 | every automatic group is one the random choice can fall on |
| Cohorts.GetLeavesAlone | common/djangoapps/course_groups/cohorts.py:120-148 | when asking for a cohort changes nothing |
| Cohorts.GetMovesOnlyThem | common/djangoapps/course_groups/cohorts.py:150-160 | no other user is moved by it |
| Roles.RoleStore.HasUserWithRole | common/djangoapps/student/roles.py:109-122 | fills the cache if needed and answers from it |
| Roles.RoleStore.HasCourse | common/djangoapps/student/roles.py:253-264 | the same check for a role in a course |
| Roles.RoleStore.AddUsersToRole | common/djangoapps/student/roles.py:124-135 | the loop that asks, saves and drops the cache, user by user |
| Roles.RoleStore.RemoveUsersFromRole | common/djangoapps/student/roles.py:137-147 | deletes the rows and every named user's cache |
| Roles.RoleStore.AddCoursesToUser | common/djangoapps/student/roles.py:266-277 | saves course by course; a duplicate stops it with the cache kept |
| Roles.RoleStore.RemoveCoursesFromUser | common/djangoapps/student/roles.py:279-286 | deletes the user's rows for those courses and the cache |
| Roles.CheckIsExact | common/djangoapps/student/roles.py:13-31 | with coherent caches the cached answer is the table's |
| Roles.AddUsersIsExact | common/djangoapps/student/roles.py:124-135 | exactly the active users named get the role, and no duplicate row is ever saved |
| Roles.AddUsersExactly | common/djangoapps/student/roles.py:124-135 | on the answers of checks: that role for those users, if active, and nothing else |
| Roles.RemoveUsersExactly | common/djangoapps/student/roles.py:137-147 | on the answers of checks: that role, by name, organisation and course, is gone from those users, and nothing else |
| Roles.AddCoursesExactly | common/djangoapps/student/roles.py:266-277 | the role in each course up to the first that is held or repeated, and nothing else; success exactly if there is none |
| Roles.RemoveCoursesExactly | common/djangoapps/student/roles.py:279-286 | the roles of that name in those courses are gone from the user, and nothing else |
| Roles.OtherCachesStay | common/djangoapps/student/roles.py:109-147 | no operation touches the cache of a user it is not about |
| Roles.AddCoursesCoherentExactly | common/djangoapps/student/roles.py:266-277 | `add_course` keeps caches right if and only if it is not stopped after a row went in |
| Roles.StepCoherentExactly | common/djangoapps/student/roles.py:109-147 | the same for every operation |
| Roles.CacheRefinesTable | common/djangoapps/student/roles.py:253-286 | over every run without such a call, every check answers as if there were no cache |
| Roles.CacheRefinesTableExactly | common/djangoapps/student/roles.py:109-147 | all through a run every check answers as if there were no cache, if and only if the run has no such call |
| Roles.StoppedAddCourseHidesRole | common/djangoapps/student/roles.py:271-275 | a stopped `add_course` hides the role it just saved |
| CourseCreators.CreatorTable.Save | cms/djangoapps/course_creators/models.py:60-99 | the handler's effect, and at most two writes: the nested save ends the recursion |
| CourseCreators.CreatorTable.PostSave | cms/djangoapps/course_creators/models.py:60-99 | group, notices and nested save after a change of status, up to the first exception |
| CourseCreators.CreatorTable.UpdateGroup | cms/djangoapps/course_creators/views.py:39-48 | the group change, if the caller has authority |
| CourseCreators.CreatorTable.AddUserWithStatusGranted | cms/djangoapps/course_creators/views.py:22-36 | a new granted row and group member; nothing for staff or known users |
| CourseCreators.CreatorTable.UserRequestedAccess | cms/djangoapps/course_creators/views.py:70-80 | pending, unless granted or unknown |
| CourseCreators.CreatorTable.SaveModel | cms/djangoapps/course_creators/admin.py:67-70 | an administrator's change of status |
| CourseCreators.StepInSyncExactly | cms/djangoapps/course_creators/models.py:68-81 | a step keeps table and group in agreement if and only if it is not an unauthorised or void change |
| CourseCreators.GroupMatchesTableExactly | cms/djangoapps/course_creators/models.py:60-99 | all through a run a user is in the group if and only if their status is granted, if and only if the run has no such change |
| CourseCreators.AdminAlwaysStored | cms/djangoapps/course_creators/models.py:72-73 | the handler's assertion never fails |
| CourseCreators.StatusStored | cms/djangoapps/course_creators/views.py:70-99 | the status every operation stores, whether or not what follows is refused |
| CourseCreators.OutcomeExactly | cms/djangoapps/course_creators/views.py:39-48 | when an operation is refused, and when there is no row for it |
| CourseCreators.NoticesExactly | cms/djangoapps/course_creators/models.py:81-95 | the notices of every operation, told from the status before and after |
| CourseCreators.GroupExactly | cms/djangoapps/course_creators/models.py:69-79 | who is in the group after every operation, also where table and group disagree |
| CourseCreators.OtherRolesStay | cms/djangoapps/course_creators/views.py:39-48 | no row of another role, or of another user, is given or taken |
| CourseCreators.DeniedLeavesRowWritten | cms/djangoapps/course_creators/views.py:22-36 | a refused addition leaves the row granted and the group without the user |
| CourseCreators.GrantToInactiveLeavesRowWritten | common/djangoapps/student/roles.py:124-135 | so does a grant to an inactive user, which raises nothing |
| XmlCleanup.CleanIsLegal | common/xml_cleanup.py:21-25 | cleaned names are legal, and exactly the legal names are left alone |
| XmlCleanup.CleanRunByRun | common/xml_cleanup.py:21-25 | every legal character but the underscore stays, and each maximal run of others becomes one underscore |
| XmlCleanup.Cleaner.CleanUnique | common/xml_cleanup.py:32-44 | terminates with the least free legal name and records it |
| XmlCleanup.LeastFreeIsUnique | common/xml_cleanup.py:37-44 | that description fits one name only |
| XmlCleanup.Cleaner.CleanupNode | common/xml_cleanup.py:64-87 | one node's attributes and the names taken |
| XmlCleanup.StripAttributes | common/xml_cleanup.py:78-87 | a disguised pointer loses its filename, and the policy keys go if asked |
| XmlCleanup.CleanupDocument | common/xml_cleanup.py:64-87 | the whole cleaned document and the names taken after it, told from the document and the names taken before |
| XmlCleanup.DocumentCarriesNames | common/xml_cleanup.py:64-87 | every node keeps its tag, loses `name`, and carries its final name |
| XmlCleanup.AttributesExactly | common/xml_cleanup.py:64-87 | every attribute of a cleaned node, told from the node |
| XmlCleanup.AvoidedExactly | common/xml_cleanup.py:64-72 | the names a new name must avoid are just those taken before and those that earlier nodes of the category came with or are left with |
| XmlCleanup.NewNameIsNew | common/xml_cleanup.py:32-44 | over a whole document, a new name is legal, the least free one, and differs from every earlier name of its category |
| XmlCleanup.NamesDistinctExactly | common/xml_cleanup.py:64-72 | all names of a category differ if and only if no node without `name` comes with the name an earlier one is left with |
| XmlCleanup.LaterUrlClashes | common/xml_cleanup.py:64-72 | two nodes that are left with one name |
| ConfigCache.NewestHasLatestDate | common/djangoapps/config_models/models.py:57 | the entry served is one of the table's with the latest `change_date` |
| ConfigCache.AlwaysTimely | common/djangoapps/config_models/models.py:31-38 | over every run of overlapping saves and reads, rows are numbered as inserted and none is dated in the future |
| ConfigCache.NewestAmongFirst | common/djangoapps/config_models/models.py:57 | a row stays the newest if and only if all rows inserted later are dated earlier |
| ConfigCache.LastInsertedNotNewest | common/djangoapps/config_models/models.py:31-38 | two overlapping saves whose last inserted entry is not the newest |
| ConfigCache.Configuration.Current | common/djangoapps/config_models/models.py:45-62 | by whole calls, exactly the newest entry; the call is a run of the interleaved steps |
| ConfigCache.Configuration.Save | common/djangoapps/config_models/models.py:33-38 | a new entry, now the newest, and an empty cache; likewise a run of the steps |
| ConfigCache.Configuration.Revert | common/djangoapps/config_models/admin.py:59-70 | the selected entry comes back as the newest |
| ConfigCache.AlwaysSound | common/djangoapps/config_models/models.py:45-62 | under any interleaving, what cache and readers hold was newest when it was read |
| ConfigCache.NewestReturnedExactly | common/djangoapps/config_models/models.py:45-62 | what is returned was read by the recorded query, and is still the newest if and only if every row inserted since is dated earlier |
| ConfigCache.BoundedStaleness | common/djangoapps/config_models/models.py:45-62 | what is returned was newest less than timeout plus read-to-set delay ago |
| ConfigCache.StalenessAttained | common/djangoapps/config_models/models.py:33-62 | for every timeout and delay, a run that returns a value replaced timeout + delay - 1 ago, and returns it no later |
| InstanceCache.KeyInjective | common/djangoapps/cache_toolbox/core.py:101-110 | keys agree only for the same row of the same model |
| InstanceCache.RebuildsRow | common/djangoapps/cache_toolbox/core.py:38-83 | data that agrees with a row rebuilds it if and only if every field it lacks has its default there; the cached dictionary does, file fields included |
| InstanceCache.HitIsExact | common/djangoapps/cache_toolbox/core.py:38-60 | a readable entry is the stored row if and only if it lacks no value of it |
| InstanceCache.LookupIsExact | common/djangoapps/cache_toolbox/core.py:38-60 | a lookup finds what is stored if and only if it does not hit such an entry |
| InstanceCache.FewerFieldsHideValue | common/djangoapps/cache_toolbox/core.py:38-60 | a lookup that finds a default in place of the stored value |
| InstanceCache.ServedUntilTimeout | common/djangoapps/cache_toolbox/core.py:38-90 | a fetched row is served from the cache until the timeout has passed, and no longer |
| InstanceCache.AbsenceNotCached | common/djangoapps/cache_toolbox/core.py:62-90 | a missing row is never cached as missing |
| InstanceCache.PurgeFits | common/djangoapps/cache_toolbox/core.py:93-98 | after a write and its purge the rest of the cache still fits, for all models |
| InstanceCache.Store.GetCached | common/djangoapps/cache_toolbox/model.py:73-78 | in every state of the cache, what is found and cached; the stored row or its absence if entries are full |
| InstanceCache.Store.GetInstance | common/djangoapps/cache_toolbox/core.py:18-90 | hit, useless entry, or miss: what is found and what the cache holds afterwards |
| InstanceCache.Store.CacheByOtherRelease | common/djangoapps/cache_toolbox/core.py:38-60 | entries of other releases, with fields more or fewer, keep the cache's invariant |
| InstanceCache.Store.CollectFields | common/djangoapps/cache_toolbox/core.py:70-83 | the loop that fills the cached dictionary |
| InstanceCache.Store.Save | common/djangoapps/cache_toolbox/model.py:67-70 | the row is written and its entry purged |
| InstanceCache.Store.Delete | common/djangoapps/cache_toolbox/model.py:67-71 | the row is deleted and its entry purged |
| InstanceRace.AlwaysSound | common/djangoapps/cache_toolbox/core.py:38-88 | under any interleaving, what cache and lookups hold was the stored row when it was fetched |
| InstanceRace.BoundedStaleness | common/djangoapps/cache_toolbox/core.py:38-88 | a row found was stored less than timeout plus fetch-to-set delay ago, and a row said to be missing is missing |
| InstanceRace.UndisturbedIsExact | common/djangoapps/cache_toolbox/core.py:38-98 | over every run whose writes do not overlap with lookups, a lookup answers what is stored |
| InstanceRace.DeletedRowIsFound | common/djangoapps/cache_toolbox/core.py:38-98 | for every timeout and delay, a run that finds a row timeout + delay - 1 after its deletion, and no later |
| EmailChange.Accounts.ConfirmEmailChange | common/djangoapps/student/views.py:1952-2013 | every failure rolls everything back; success makes all three changes |
| EmailChange.Accounts.ChangeEmailRequest | common/djangoapps/student/views.py:1874-1947 | a request is stored unless refused; a failed mail leaves it stored |
| EmailChange.RequestStoredExactly | common/djangoapps/student/views.py:1874-1947 | when a request is stored, told from the tables, the password and the address |
| EmailChange.ConfirmedExactly | common/djangoapps/student/views.py:1952-2013 | when a confirmation takes, and all three tables afterwards |
| EmailChange.AddressesStayDistinct | common/djangoapps/student/views.py:1971-1974 | over every run, no two accounts share an address |
| EmailChange.LogIsWholeHistory | common/djangoapps/student/views.py:1981-1997 | over every run, logged addresses and the present one are exactly those held, in order |
| EmailChange.FirstClaimHolds | common/djangoapps/student/views.py:1965-1974 | of several who ask for an address the first to confirm keeps it over every run; the others' confirmations change nothing |
| EmailChange.LinkWorksOnce | common/djangoapps/student/views.py:1995-1997 | a used link is unknown afterwards |
| MonkeyPatch.Module.IsPatched | common/djangoapps/monkey_patch/__init__.py:44-49 | whether there is a backup, and so anything on top of the original |
| MonkeyPatch.Module.Patch | common/djangoapps/monkey_patch/__init__.py:52-62 | pushes the replacement, and says for every attribute exactly when its chain survives |
| MonkeyPatch.LinkedExactly | common/djangoapps/monkey_patch/__init__.py:52-62 | the same of the backups alone: when chains survive a patch, and when none is left at all |
| MonkeyPatch.PatchAcross | common/djangoapps/monkey_patch/__init__.py:52-80 | patching one attribute with another's function and unpatching the other swaps the two |
| MonkeyPatch.Module.Unpatch | common/djangoapps/monkey_patch/__init__.py:65-80 | pops the latest patch, never the original |
| MonkeyPatch.CycleNeverEnds | common/djangoapps/monkey_patch/__init__.py:65-80 | no finite chain of backups starts on a cycle |
| MonkeyPatch.LinkedDistinct | common/djangoapps/monkey_patch/__init__.py:65-80 | a chain that ends visits no function twice |
| MonkeyPatch.Module.Replay | common/djangoapps/monkey_patch/__init__.py:52-80 | any interleaving of patches by any functions, each on no chain when it goes on, and unpatches |
| MonkeyPatch.BottomStays | common/djangoapps/monkey_patch/__init__.py:52-80 | such a run leaves the stack below its lowest point untouched |
| MonkeyPatch.OriginalStays | common/djangoapps/monkey_patch/__init__.py:52-80 | and so the original is always the last of it |
| MonkeyPatch.Module.PatchAndUnpatch | common/djangoapps/monkey_patch/__init__.py:52-80 | n patches and n unpatches put the module back |
| MonkeyPatch.GuardedCall | common/djangoapps/monkey_patch/django_utils_translation.py:58-74 | at every depth, the default on empty input and the original's answer otherwise |
| MonkeyPatch.Translation.Patch | common/djangoapps/monkey_patch/django_utils_translation.py:50-79 | both functions get one guard more |
| MonkeyPatch.Translation.Unpatch | common/djangoapps/monkey_patch/django_utils_translation.py:82-91 | both lose one, if they have one |
| MonkeyPatch.Translation.Replay | common/djangoapps/monkey_patch/django_utils_translation.py:50-91 | any interleaving leaves the stack below its lowest point untouched, and the whole stack if it comes back without dipping below it |
| MonkeyPatch.Translation.Answer | common/djangoapps/monkey_patch/django_utils_translation.py:58-74 | what a caller of the module gets in every reachable state |
| MonkeyPatch.BalancedRestores | common/djangoapps/monkey_patch/__init__.py:52-80 | a run that comes back to its start's height without dipping below it leaves the very stack it found |
| MonkeyPatch.PatchesThenUnpatches | common/djangoapps/monkey_patch/__init__.py:52-80 | n unpatches after at least as many patches leave just the earlier patches |
| Ancestors.ReleaseSourceIsTop | cms/djangoapps/contentstore/utils.py:178-197 | the source is the top of the maximal run of ancestors with the block's date |
| Ancestors.LockSourceIsNearest | cms/djangoapps/contentstore/utils.py:200-221 | the source is the nearest explicit setting up to the chapter, with the block's inherited flag |
| Ancestors.LockSourceMeansLockedExactly | cms/djangoapps/contentstore/utils.py:200-235 | when it is true that a source is returned if and only if the block is locked, told from the tree alone |
| Ancestors.UnlockedBlockIsReturned | cms/djangoapps/contentstore/utils.py:206-208 | a block returned as its own lock source that is not locked |
| Ancestors.LockAboveChapterIsMissed | cms/djangoapps/contentstore/utils.py:210-212 | a locked block for which no source is returned |
| ForumRoles.RoleTable.SeedPermissionsRoles | common/djangoapps/django_comment_common/utils.py:26-49 | the ten seeding steps amount to a closed form |
| ForumRoles.RoleTable.InheritPermissions | common/djangoapps/django_comment_common/models.py:67-76 | the loop adds all of the other role's permissions |
| ForumRoles.RoleTable.ArePermissionsRolesSeeded | common/djangoapps/django_comment_common/utils.py:52-76 | the check's answer, the missing course included |
| ForumRoles.SeededPermissionsExactly | common/djangoapps/django_comment_common/utils.py:26-49 | who may do what after seeding, role by role, from whatever state |
| ForumRoles.CheckExactly | common/djangoapps/django_comment_common/utils.py:52-76 | in every state of the roles, when the check says yes and when it misses the course |
| ForumRoles.PostingByName | common/djangoapps/django_comment_common/models.py:78-87 | posting permissions are those whose names start with "edit", "update" or "create" |
| ForumRoles.SeedingSatisfiesCheckExactly | common/djangoapps/django_comment_common/utils.py:26-76 | seeding satisfies the check if and only if the course exists and allows posting |
| ForumRoles.SeedingNestsRoles | common/djangoapps/django_comment_common/utils.py:44-49 | how the four roles' permissions contain each other |
| ForumRoles.SeedingIsIdempotent | common/djangoapps/django_comment_common/utils.py:26-49 | seeding again changes nothing |
| Decimal.PrintIntInjective | common/djangoapps/cache_toolbox/core.py:106-110 | decimal texts differ for different numbers, negative ones included |

## Left out

- Rollback by the request's transaction middleware: an exception in a view undoes its writes in production settings; the models show the state at the exception.
- Event delivery: `emit_event` swallows tracker errors; the log holds its calls, not what the tracker stored.
- Stale row objects: `update_enrollment` and the admin form are modelled on freshly fetched rows.
- HTML as text: a page is modelled parsed, as its entries and their elements; the HTML parser and the page as a string are not part of this model.
- Sharing of dictionaries with the modulestore: saving copies, so removing the status key from the returned update (course_info_model.py:80-81) does not reach the store.
- Ties in `change_date`: of two configuration entries with the same date, the later insertion counts as the newer.
- ORM updates that bypass signals.
- Organisation roles, `users_with_role`, and `has_access` for course roles: only the authority over the creator group is modelled.
- Password strength rules, password hashing, and activation of the user in the reset view.
- Group types other than cohorts, and profiles missing for users of a batch.
- The original functions behind the translation patch: any function from text to text.
- Whether the release date source set the date itself (contentstore/utils.py:179-181): a block's `start` carries no mark of being inherited.
- Lookups in the modulestore for ancestors: the tree is given, and its parents are present.
- Reading and writing XML files, and the warning about nodes with both slug and url_name.
