# A verified model of the travel-objectives web app's page logic

The application lets a signed-in user add travel *objectives* (lists of places), tick off
the places they have visited, follow other users, read an activity list, and sign up or
reset a password. This project models, in Dafny, the logic of seven of its source files:

- `ObjectiveDetail` — the objective page: loading the objective, its places and the
  user's progress; adding or removing the objective; toggling a place.
- `Follows`, `PublicProfile`, `ExploreUsers` — the `follows` table, the profile page with
  its follower counters, and the user search with one follow card per result.
- `Notifications` — relative times, grouping the activity list by day, entry texts and
  click routing.
- `Explore` — the objective catalogue filter by category tab and title search.
- `Validations` — the signup, login and profile form schemas.
- `ResetPassword` — the new-password schema, the per-field error map and the submit handler.

`Wrappers` (an `Option` type and JavaScript truthiness of a nullable string) and `Text`
(JavaScript `trim`, an ASCII `toLowerCase`, `includes`, decimal rendering) are shared helpers.

The remote store is a set of rows held in memory. Each write takes an `ok` flag that says
whether the store accepted it; a refused write changes no row. Each read that can fail takes
a flag, or an `Option` answer. Stateful pages are classes whose fields are the component's
state hooks. Each of their methods is proved equal to a pure function of the old state
(`Snapshot() == AfterX(old(Snapshot()), ...)`). The lemmas about those functions state what
the page promises: round trips, nothing else changes, and invariants between the view and
the store.

The page code does the following, and the model follows it:

- Removing an objective deletes only the membership row. No cleanup of progress or feed
  rows happens.
- Toggling a place on an objective the user does not hold is not rejected. The objective
  is added first, and its errors are swallowed.
- The profile's follower counter is not floored at zero.
- The profile page's follow does not check for an existing row first.

## Model

| member | source | states |
|---|---|---|
| ObjectiveDetail.ItemsOf | src/pages/ObjectiveDetail.tsx:74-78 | the objective's places are exactly the table rows with that objective id, no more than the table holds |
| ObjectiveDetail.ItemsOfSorted | src/pages/ObjectiveDetail.tsx:74-78 | selecting one objective's rows from a table in `order_index` order keeps them in that order |
| ObjectiveDetail.AfterLoad | src/pages/ObjectiveDetail.tsx:49-104 | loading the page writes no membership or progress row; without a route id it changes nothing (and `loading` stays true), and with one `loading` is false afterwards |
| ObjectiveDetail.LoadMergesProgress | src/pages/ObjectiveDetail.tsx:49-104 | after a load whose reads all answered: the objective is shown, loading is over, the held flag is whether the membership row exists, and the list has the objective's places in order, each completed exactly when the user has a progress row for it; no row changes |
| ObjectiveDetail.LoadWithoutProgress | src/pages/ObjectiveDetail.tsx:81-96 | when the progress read returns nothing, every place shows as not visited |
| ObjectiveDetail.LoadEstablishesConsistency | src/pages/ObjectiveDetail.tsx:56-96 | a load whose reads all answered leaves the view agreeing with the membership and progress rows |
| ObjectiveDetail.CompletedCount | src/pages/ObjectiveDetail.tsx:204 | the completed count is at most the number of places, and equals it exactly when every place is completed |
| ObjectiveDetail.AfterToggle | src/pages/ObjectiveDetail.tsx:148-186 | without a user nothing changes; the list keeps its length; the only membership change is the automatic insert for an objective not held; no progress row other than the toggled place's changes |
| ObjectiveDetail.ToggleFlipsOnlyTarget | src/pages/ObjectiveDetail.tsx:157-178 | an accepted toggle flips `completed` on exactly the entries with that id, keeps the others, and deletes the progress row of a completed place or inserts it otherwise |
| ObjectiveDetail.ToggleAddsObjectiveFirst | src/pages/ObjectiveDetail.tsx:153-155 | toggling a place of an objective not held inserts the membership row first, so the objective is held afterwards even if the progress write fails |
| ObjectiveDetail.ToggleErrorChangesNothing | src/pages/ObjectiveDetail.tsx:157-172 | a refused progress write leaves the list unchanged, and changes nothing at all when no membership insert was made |
| ObjectiveDetail.ToggleTwiceRestores | src/pages/ObjectiveDetail.tsx:148-186 | toggling a place twice restores the progress rows and the list; an unheld objective ends up held (added by the first toggle, or by the second if the first insert failed), and a held one leaves the whole page as before |
| ObjectiveDetail.AddObjectiveRoundTrip | src/pages/ObjectiveDetail.tsx:106-146 | adding or removing the objective flips the held flag, never touches progress or the list, and doing it twice restores the page |
| ObjectiveDetail.AddObjectiveErrorChangesNothing | src/pages/ObjectiveDetail.tsx:111-138 | a refused membership insert or delete changes neither the flag nor the rows |
| ObjectiveDetail.CommandsPreserveConsistency | src/pages/ObjectiveDetail.tsx:106-186 | adding, removing and toggling (with a listed place's current flag) keep the view agreeing with the rows, whatever the store answers |
| ObjectiveDetail.FlipMovesCountByOne | src/pages/ObjectiveDetail.tsx:174-178 | flipping a place with a unique id moves the completed count by exactly one, down for a completed place and up otherwise |
| ObjectiveDetail.FlipMissesAbsent | src/pages/ObjectiveDetail.tsx:174-178 | flipping an id that is not listed leaves the list as it was |
| ObjectiveDetail.ObjectiveDetailPage.constructor | src/pages/ObjectiveDetail.tsx:32-35 | the initial hooks: no objective, not held, no places, loading |
| ObjectiveDetail.ObjectiveDetailPage.Load | src/pages/ObjectiveDetail.tsx:49-104 | the new page state is `AfterLoad` of the old one: a missing route id returns before the `try`, so loading stays true |
| ObjectiveDetail.ObjectiveDetailPage.AddObjective | src/pages/ObjectiveDetail.tsx:106-146 | the new state and rows are `AfterAdd` of the old ones |
| ObjectiveDetail.ObjectiveDetailPage.ToggleItem | src/pages/ObjectiveDetail.tsx:148-186 | the new state and rows are `AfterToggle` of the old ones |
| Follows.FollowersOf | src/pages/PublicProfile.tsx:80-83 | the follower count is at most the number of rows, and zero exactly when no row names the user as followed |
| Follows.FollowingOf | src/pages/PublicProfile.tsx:85-88 | the following count is at most the number of rows, and zero exactly when no row names the user as follower |
| Follows.InsertCounts | src/pages/PublicProfile.tsx:79-92 | inserting a new pair raises by one the follower count of the followed user and the following count of the follower, and no other count |
| Follows.DeleteCounts | src/pages/PublicProfile.tsx:79-92 | deleting an existing pair lowers the same two counts by one |
| Follows.FollowTable.Insert | src/pages/PublicProfile.tsx:100-103 | an accepted insert adds the pair; a refused one changes nothing |
| Follows.FollowTable.Delete | src/pages/PublicProfile.tsx:109-113 | an accepted delete removes the pair; a refused one changes nothing |
| PublicProfile.ResolveProfileId | src/pages/PublicProfile.tsx:33-37 | the route id "me" names the signed-in user; any other non-empty id is taken as is; a missing or empty id gives null |
| PublicProfile.IsMyProfile | src/pages/PublicProfile.tsx:123 | the page is the viewer's own exactly when the profile id is the signed-in id; an absent id never is (its consequences are stated by ControlShownOnlyForOthers) |
| PublicProfile.ControlShownOnlyForOthers | src/pages/PublicProfile.tsx:123 | on `/user/me` the page is the user's own and offers no follow control; on another non-empty id it is the user's own exactly when the id is the signed-in user's; without an id it never is |
| PublicProfile.LoadCountsRows | src/pages/PublicProfile.tsx:67-92 | for a signed-in user, a load whose reads all answered makes the flag and both counters agree with the rows |
| PublicProfile.FailedCountReadsZero | src/pages/PublicProfile.tsx:90-91 | a failed count read shows 0 whatever the rows hold |
| PublicProfile.FollowKeepsCounted | src/pages/PublicProfile.tsx:99-106 | on another user's profile, an accepted follow of a user not followed keeps the counters equal to the rows |
| PublicProfile.UnfollowKeepsCounted | src/pages/PublicProfile.tsx:108-117 | on another user's profile, an accepted unfollow of a followed user keeps the counters equal to the rows |
| PublicProfile.FollowUnfollowRoundTrip | src/pages/PublicProfile.tsx:99-117 | follow then unfollow restores the counters and the flag, and also the rows when the pair was absent and the delete went through |
| PublicProfile.RefusedFollowDrifts | src/pages/PublicProfile.tsx:99-106 | because the insert's error is ignored, a refused follow still raises the counter and the view no longer matches the rows |
| PublicProfile.UnfollowHasNoFloor | src/pages/PublicProfile.tsx:108-117 | unfollowing at a zero counter shows -1 |
| PublicProfile.PublicProfilePage.constructor | src/pages/PublicProfile.tsx:18-23 | the initial hooks: no user, no profile id, not following, zero counters |
| PublicProfile.PublicProfilePage.LoadUser | src/pages/PublicProfile.tsx:26-41 | the new state is `AfterLoadUser`: the signed-in id, or "" without one, and the resolved profile id |
| PublicProfile.PublicProfilePage.LoadProfile | src/pages/PublicProfile.tsx:44-92 | the new state is `AfterLoadProfile`: nothing without a profile id; the flag only for a signed-in user; each counter from its read, or 0 |
| PublicProfile.PublicProfilePage.FollowProfile | src/pages/PublicProfile.tsx:99-106 | the new state and rows are `AfterFollow`: the flag is set and the counter raised whatever the store answers |
| PublicProfile.PublicProfilePage.UnfollowProfile | src/pages/PublicProfile.tsx:108-117 | the new state and rows are `AfterUnfollow`: the flag is cleared and the counter lowered whatever the store answers |
| ExploreUsers.SignKeepsUsers | src/pages/ExploreUsers.tsx:40-50 | signing avatars keeps the results' number, order, ids and usernames, and leaves users without an avatar untouched |
| ExploreUsers.AfterSearch | src/pages/ExploreUsers.tsx:23-56 | the store is queried exactly when the trimmed search is not empty; with no query or a failed one the results are empty, and an answer gives one result per returned row |
| ExploreUsers.BlankSearchIssuesNoQuery | src/pages/ExploreUsers.tsx:24-27 | a search of only white space sends no query and shows no result |
| ExploreUsers.VisibleSearchQueries | src/pages/ExploreUsers.tsx:29-53 | a search with a visible character sends a query and shows one card per returned row |
| ExploreUsers.CheckAgrees | src/pages/ExploreUsers.tsx:96-110 | for a signed-in user, an answered check makes the card's flag match the rows |
| ExploreUsers.SelfFollowIsNoOp | src/pages/ExploreUsers.tsx:116 | following one's own card changes nothing, whatever the store would answer |
| ExploreUsers.RefusedWritesChangeNothing | src/pages/ExploreUsers.tsx:118-146 | a refused follow or unfollow changes neither the flag nor the rows |
| ExploreUsers.CardWritesKeepAgreement | src/pages/ExploreUsers.tsx:113-147 | follow and unfollow keep a card that agrees with the rows agreeing, whatever the store answers |
| ExploreUsers.CardFollowUnfollowRoundTrip | src/pages/ExploreUsers.tsx:113-147 | on another user's card, an accepted follow then an accepted unfollow restores the card and the rows |
| ExploreUsers.ExploreUsersPage.constructor | src/pages/ExploreUsers.tsx:11-12 | the initial hooks: no results and no query sent |
| ExploreUsers.ExploreUsersPage.OnSearch | src/pages/ExploreUsers.tsx:23-56 | the results are those of `AfterSearch`, and the query count goes up by one exactly when a query is sent |
| ExploreUsers.UserCard.constructor | src/pages/ExploreUsers.tsx:91-93 | a card starts not following |
| ExploreUsers.UserCard.Check | src/pages/ExploreUsers.tsx:96-110 | the new flag is `AfterCheck`: unchanged without a signed-in id, else whether the pair exists |
| ExploreUsers.UserCard.FollowUser | src/pages/ExploreUsers.tsx:113-129 | the new flag and rows are `AfterCardFollow`: refused for one's own card, set only after an accepted insert |
| ExploreUsers.UserCard.UnfollowUser | src/pages/ExploreUsers.tsx:132-147 | the new flag and rows are `AfterCardUnfollow`: cleared only after an accepted delete |
| ExploreUsers.FollowButtonMatchesGuard | src/pages/ExploreUsers.tsx:113-116 | the follow button, rendered only on another user's card, is hidden exactly where the handler's self guard makes a follow change nothing; on any other card an accepted follow stores the pair and sets the flag |
| Notifications.RelOf | src/pages/Notifications.tsx:19-28 | the bucket is "a moment ago" exactly under an hour; an hour count is from 1 to 23 and a day count from 2 to 6 |
| Notifications.RelByElapsed | src/pages/Notifications.tsx:19-29 | under an hour (or in the future) is "a moment ago"; then whole hours from 1 to 23; "1 day" on the second day; whole days from 2 to 6; the calendar date from the seventh day on |
| Notifications.HoursThenDays | src/pages/Notifications.tsx:22-25 | flooring to hours and then to days equals flooring to days |
| Notifications.RelMonotone | src/pages/Notifications.tsx:19-29 | as time passes an entry's shown age never goes back |
| Notifications.FormatRel | src/pages/Notifications.tsx:19-29 | from the seventh day the text is the calendar date; before that it starts with "Hace " |
| Notifications.FormatRelHours | src/pages/Notifications.tsx:24 | within the first day the text is "Hace <n>h" with n the whole hours elapsed, read back from the digits |
| Notifications.FormatRelDays | src/pages/Notifications.tsx:27 | from the second to the seventh day the text is "Hace <n> días" with n the whole days elapsed |
| Notifications.DayKey | src/pages/Notifications.tsx:31-34 | the day key is the first 10 characters of the timestamp, a prefix of it |
| Notifications.GroupedSpec | src/pages/Notifications.tsx:61-70 | one group per distinct day key (Keys, in first-appearance order), each group non-empty and holding only entries of its day (GroupOf) |
| Notifications.KeysComplete | src/pages/Notifications.tsx:61-70 | a day is a group key exactly when some entry falls on it |
| Notifications.KeysDistinct | src/pages/Notifications.tsx:61-70 | no day is a group key twice |
| Notifications.KeysInFirstAppearanceOrder | src/pages/Notifications.tsx:61-70 | the groups come in the order of their days' first entries |
| Notifications.GroupOfMembers | src/pages/Notifications.tsx:63-67 | a day's group holds exactly the entries of that day |
| Notifications.EntriesInTheirDay | src/pages/Notifications.tsx:61-70 | every group holds exactly its day's entries, and every entry is in its day's group |
| Notifications.GroupsArePermutation | src/pages/Notifications.tsx:61-70 | the groups read in order hold every entry exactly once: a permutation of the list |
| Notifications.GroupsConcatenateToList | src/pages/Notifications.tsx:61-70 | when each day's entries are adjacent, as in a list ordered by time, the groups read in order give back the list |
| Notifications.Grouped | src/pages/Notifications.tsx:61-70 | the `Map` loop returns the groups of `GroupedSpec`: one per day in first-appearance order, each with that day's entries in list order |
| Notifications.TextFor | src/pages/Notifications.tsx:100-113 | the text is empty exactly for an unknown kind |
| Notifications.TextForTemplates | src/pages/Notifications.tsx:100-113 | each kind has its fixed Spanish sentence around the interpolated names (null prints as "null"); a follower without a name is "Alguien"; an unknown kind shows nothing |
| Notifications.OnClickRow | src/pages/Notifications.tsx:115-118 | a follower entry leads nowhere, and any route is an objective page |
| Notifications.ClickRouting | src/pages/Notifications.tsx:115-118 | a click navigates exactly for a non-follower entry with a non-empty objective id, and then to that objective's page |
| Text.Lower | src/pages/Explore.tsx:69-72 | lower-casing keeps the length and maps each character on its own, ASCII capitals to small letters and every other character to itself |
| Explore.FindBySlug | src/pages/Explore.tsx:68 | the found category is in the list and has the slug, and none is found exactly when no category has it |
| Explore.Filtered | src/pages/Explore.tsx:65-74 | the list shown is no longer than the catalogue, and every objective in it is in the catalogue and passes both the category test (MatchesCategory) and the search test (MatchesSearch) |
| Explore.FilteredIsSubsequence | src/pages/Explore.tsx:65-74 | the list shown keeps the catalogue's order and only drops objectives |
| Explore.FilteredMembers | src/pages/Explore.tsx:65-74 | an objective is shown exactly when it is in the catalogue and passes both the category and the search test |
| Explore.EmptyFiltersShowAll | src/pages/Explore.tsx:66-72 | with no tab selected and an empty query, every objective is shown, in order |
| Explore.SearchBasics | src/pages/Explore.tsx:70-72 | the empty query matches every title, and a query that differs from the title only in case matches it |
| Explore.UnknownTabShowsNothing | src/pages/Explore.tsx:66-69 | a tab whose slug no category has shows nothing |
| Explore.CategoryTest | src/pages/Explore.tsx:66-69 | with a tab selected, an objective passes exactly when its category is the id of the first category with that slug |
| Explore.AfterLoadCategories | src/pages/Explore.tsx:46-55 | an answer sets the tabs and selects the first one's slug, or "" with none; a failed read changes nothing |
| Explore.LoadSelectsFirstTab | src/pages/Explore.tsx:46-55 | after a load that returned categories, the selected tab is the first one's and the test shows exactly that category's objectives |
| Text.Trim | src/lib/validations.ts:9-14 | trimming never lengthens the string and leaves no white space at either end |
| Text.TrimIsSlice | src/lib/validations.ts:9-14 | the trimmed string is a contiguous slice of the input, and everything dropped before and after it is white space |
| Validations.Bounds | src/lib/validations.ts:7-8 | a length check gives no issue exactly when the length is within the bounds, and every issue names its field |
| Validations.SignupPasswordRule | src/lib/validations.ts:5-8 | a signup password is accepted exactly when it has 8 to 72 characters |
| Validations.SignupUsernameRule | src/lib/validations.ts:9-14 | a signup username is accepted exactly when, trimmed, it has 3 to 30 characters, all letters, digits, `_` or `-` |
| Validations.SignupCityRule | src/lib/validations.ts:15 | a signup city is accepted exactly when, trimmed, it has 2 to 100 characters |
| Validations.SignupLongEmailRejected | src/lib/validations.ts:4 | an email longer than 255 characters is rejected whatever its format |
| Validations.SignupIssues | src/lib/validations.ts:3-16 | every signup issue is about exactly one field: email, password, username or city |
| Validations.SignupAcceptedIff | src/lib/validations.ts:3-16 | the signup form is accepted exactly when every field rule holds |
| Validations.ParseSignup | src/lib/validations.ts:3-16 | a successful parse returns the form with username and city trimmed; a failed one has at least one issue |
| Validations.LoginIssues | src/lib/validations.ts:18-21 | a login has no issue exactly when the email test passes and the password is not empty; every issue is about the email or the password |
| Validations.LoginPasswordRule | src/lib/validations.ts:20 | a login password is accepted exactly when it is not empty, with no upper bound |
| Validations.ProfileIssues | src/lib/validations.ts:23-30 | every profile issue is about the username or the city |
| Validations.ParseProfile | src/lib/validations.ts:23-30 | a successful parse returns the trimmed username and city; a failed one has at least one issue |
| Validations.ProfileAcceptedIff | src/lib/validations.ts:23-30 | a profile is accepted exactly when the trimmed username has 3 to 30 characters of any kind and the trimmed city 2 to 100 |
| Validations.SignupValuesFitProfile | src/lib/validations.ts:9-29 | every username and city that signup accepts, the profile form accepts too, with the same trimmed values |
| Validations.ProfileAllowsSpaces | src/lib/validations.ts:24-28 | any 3-to-30-character username with a space inside and none at its ends is kept as is by the trim, passes the profile length rule and fails the signup pattern |
| ResetPassword.NewPasswordIssues | src/pages/ResetPassword.tsx:12-21 | at most two issues, each about `password` or `confirmPassword` |
| ResetPassword.NewPasswordValidIff | src/pages/ResetPassword.tsx:12-21 | a new password is accepted exactly when it has 8 to 72 characters and the confirmation repeats it |
| ResetPassword.MismatchUnderConfirm | src/pages/ResetPassword.tsx:18-21 | a mismatch is reported exactly when the two differ, under `confirmPassword`, with its own message, and no other issue is about that field |
| ResetPassword.ErrorsOf | src/pages/ResetPassword.tsx:82-85 | every error shown under a field is the message of some issue about that field |
| ResetPassword.ErrorKeys | src/pages/ResetPassword.tsx:82-85 | the error map has a key exactly for the fields some issue names first; an issue with an empty path is dropped |
| ResetPassword.ErrorLastWins | src/pages/ResetPassword.tsx:82-85 | each key holds the message of the last issue about that field |
| ResetPassword.CollectErrors | src/pages/ResetPassword.tsx:82-85 | the `forEach` builds the map `ErrorsOf` describes |
| ResetPassword.MismatchErrors | src/pages/ResetPassword.tsx:12-21 | a password of valid length with a wrong confirmation shows only the mismatch message |
| ResetPassword.ShortAndMismatchErrors | src/pages/ResetPassword.tsx:12-21 | a short password with a wrong confirmation shows one message under each field |
| ResetPassword.AfterSubmit | src/pages/ResetPassword.tsx:72-120 | a submit never edits the two fields; it calls `updateUser` once exactly when the form is valid and otherwise not at all; a changed stored password is the typed one, of 8 to 72 characters |
| ResetPassword.InvalidSubmitWritesNothing | src/pages/ResetPassword.tsx:72-88 | an invalid form never reaches the auth service: the stored password, the call count, loading and the session are unchanged, and the errors are those of this attempt alone and not empty |
| ResetPassword.ValidSubmitUpdates | src/pages/ResetPassword.tsx:90-119 | a valid form calls `updateUser` once and shows no error; the password is stored and the session ended exactly when the call succeeds; loading is over |
| ResetPassword.EditHidesOnlyThatField | src/pages/ResetPassword.tsx:150-153 | editing a field hides that field's message and leaves every other field's as it was |
| ResetPassword.ResetPasswordPage.constructor | src/pages/ResetPassword.tsx:24-29 | the initial hooks: empty fields, no errors, not loading |
| ResetPassword.ResetPasswordPage.EditPassword | src/pages/ResetPassword.tsx:150-153 | the new state is `AfterEditPassword`: the field's value and an empty message for it |
| ResetPassword.ResetPasswordPage.EditConfirm | src/pages/ResetPassword.tsx:181-184 | the new state is `AfterEditConfirm`: the field's value and an empty message for it |
| ResetPassword.ResetPasswordPage.Submit | src/pages/ResetPassword.tsx:72-120 | the new state is `AfterSubmit` of the old one |

## Left out

- Store and auth calls are not executed. Their answers are parameters: a write's acceptance
  flag, a read's answer or failure, the signed-in user. The page runs checks, `getSession`
  redirects, `fetchProfile` (profile row and avatar signing on the profile page), the
  recovery-link check on the password page and the toasts are not modelled.
- Async interleaving is not modelled. Each command is one sequential step: overlapping
  effects, double taps, and the stale `hasObjective` read after `await handleAddObjective()`
  are out of scope.
- Activity-feed writes are not modelled, because none of the seven modelled source files writes
  `activity_feed` rows. Nor are the
  cascading deletes and the link between a new_follower entry and its follow row.
- The percentage `completedCount / total_items * 100` with `Math.round` is floating point.
  Only the integer count is modelled.
- `Date` handling is not modelled. Elapsed time is an integer number of milliseconds.
  `formatRel`'s calendar-date branch returns a date string passed in.
- Notifications.DayKey: takes the first 10 characters of the stored timestamp. This assumes
  the timestamp is already in the UTC form `toISOString` produces; the conversion of other
  forms and time zones is not modelled.
- Notifications.GroupsConcatenateToList: requires each day's entries to be adjacent. The
  store's `created_at` descending order gives that, but the query's ordering is not modelled.
- The user search's `ilike` query is not modelled. Its answer is a parameter, and signing an
  avatar is a function parameter that may answer null.
- `toLowerCase` is modelled on ASCII letters only.
- zod's email format check is a predicate parameter (`isEmail`).
- zod's default message for a `max` check without a message is written as zod version 3
  spells it. Issue order follows the schema's field order and check order.
- String lengths count Unicode code points. JavaScript counts UTF-16 code units, so the
  two differ for characters outside the Basic Multilingual Plane.
- ObjectiveDetail.ItemsOf: the `objective_items` table is given in `order_index` order, and
  the query keeps that order. The database's sort itself is not modelled.
- Follows.FollowTable: at most one row per (follower, following) pair. A duplicate insert
  that the store accepts leaves one row.
- ResetPassword.ErrorsOf: the error record is keyed by field. Every field's key is a
  non-empty string (`Validations.Name`), so `if (err.path[0])` drops only issues with an
  empty path.
- ResetPassword.AfterSubmit: only the state after the handler finishes is modelled. `loading`
  is true only while `updateUser` is pending. The redirect 1.5 s after success is not
  modelled.
- Map rendering, icons, the `headerFor` today/yesterday labels and the other pages
  (Dashboard, Add, Auth, Profile, WorldMap) are outside this model.
