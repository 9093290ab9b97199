# Volleyball stats: a verified model of the roster, stat and sign-up logic

This project models the decision logic of a volleyball statistics web
application in Dafny and proves properties of it. The application has an
Express/Mongoose backend (users, teams with embedded matches, recorded plays,
JWT authentication, an admin area) and a React frontend (sign-up forms, a stat
entry panel, a profile page with per-action statistics, a team manager, an
admin user search and a match video player).

One Dafny module stands for each source file of the core:

- `Store` is the document store. It is a class `Database` holding the `users`
  and `teams` collections as sequences in insertion order, so `findOne` is
  "the first match". It also keeps a counter for fresh ids. `$pull` and
  `$addToSet` are the functions `Pull` and `AddToSet`. The store invariant is
  distinct ids, ids below the counter and unique emails.
- `AdminController`, `AuthController`, `StatRoutes` and `AuthMiddleware` are
  methods over the store or the request object, with `modifies` clauses.
  Each states its reply and the whole new state. bcrypt and JWT are
  function-typed parameters (`hash`, `compare`, `sign`, `verify`).
- `StatModel`, `TeamModel` and `UserModel` are the Mongoose schemas. Each is
  a validation function returning either the stored document or the list of
  schema errors.
- The frontend components whose handlers update state (`StatEntry`,
  `DataEntryPage`, `SignupForm`, `SignupPage`, `TeamManagement`) are classes
  whose fields are the component's state variables. Outgoing calls (posts,
  sign-ups, team callbacks) are recorded in a log field.
- The pure frontend logic is functions with lemmas: the tally of
  `calculateStats`, the success tables, the two email checks, the admin user
  search and the YouTube id extractor.

Some behaviours only show when modules are combined, and the model proves them:

- The stat route builds a record without `matchId` and `playerName`. The stat
  schema requires both, so every save is rejected with 500. The 201 branch of
  the route can never run (`StatRoutes.RouteRecordAlwaysRejected`,
  `StatRoutes.Post`).
- The frontend's stat entry panel therefore ends with the error snackbar
  'Error recording stat' whenever the player id, team name, action and
  result are non-empty (`StatEntry.PayloadNeverStored`). A team name can be
  empty, because the admin's team update stores its patch without
  validators. The route then answers 400 'Missing required fields', and the
  panel shows that message instead.
- The frontend action names 'Spike', 'Dig' and 'Serve Recieve' fall outside
  the schema's action enumeration (`StatModel.FrontendActionsRejected`).
- The data entry page and the stat entry panel offer different results for
  every action (`DataEntryPage.TablesDisagree`).
- The profile page's success table disagrees with the shared one except for
  ('Spike', 'Kill') (`ProfilePage.SuccessRateDisagrees`).
- `updateUser` on an unknown id answers 500, not 404, because the old team is
  read from a null user before the 404 check (`AdminController.UpdateUser`).
- An update without a `team` key pulls the user from their team. The user's
  own `team` field stays as it was (`AdminController.MoveWithoutTeamKeyPulls`).
- The default team 'None' is a non-empty string. The controllers' truthiness
  checks therefore treat it as a team name (`UserModel.DefaultTeamIsTruthy`).
- The sign-up page's email test is unanchored, so it accepts strictly more
  than the sign-up form's (`SignupPage.LooserThanForm`,
  `SignupPage.StrictlyLooserThanForm`).

The email and YouTube regular expressions are not run by a regex engine. Each
is written as a direct scan, and a lemma relates the scan to a declarative
statement of what the pattern accepts (`SignupForm.IsValidEmailIff`,
`SignupPage.LooseEmailTestIff`, `YouTubePlayer.ExtractAfterMarker`).

## Model

| member | source | states |
|---|---|---|
| StatModel.ValidIff | backend/src/models/stat.model.js:3-30 | a stat document is valid exactly when userId, matchId, team, playerName, action and result are all non-empty and the action is one of the six enumerated ones |
| StatModel.Save | backend/src/models/stat.model.js:3-35 | saving succeeds exactly on a valid document; a failure lists the schema's errors (never empty); a stored stat keeps the given timestamp or gets the creation time, and its action is in the enumeration and its result non-empty |
| StatModel.FrontendActionsRejected | backend/src/models/stat.model.js:22-26 | a document whose action is 'Spike', 'Dig' or 'Serve Recieve' is invalid and reports an enumeration error for `action` |
| TeamModel.TrimStart | backend/src/models/team.model.js:8-17 | the result is a suffix of the input, everything dropped is whitespace, and it does not start with whitespace |
| TeamModel.TrimEnd | backend/src/models/team.model.js:8-17 | the result is a prefix of the input, everything dropped is whitespace, and it does not end with whitespace |
| TeamModel.TrimSpec | backend/src/models/team.model.js:8-17 | trimming keeps one contiguous block of the input, drops only whitespace around it, and the block neither starts nor ends with whitespace |
| TeamModel.TrimEmptyIff | backend/src/models/team.model.js:8-17 | a trimmed string is empty exactly when the input is all whitespace |
| TeamModel.TrimIdempotent | backend/src/models/team.model.js:8-17 | trimming twice is trimming once |
| TeamModel.CastMatch | backend/src/models/team.model.js:3-36 | a cast match has location, opponent and videoUrl present exactly when given, and then trimmed; both scores default to 0 |
| TeamModel.MatchValidIff | backend/src/models/team.model.js:3-36 | a submitted match saves exactly when it has a date, a location and an opponent that are not blank after trimming, and both scores (after defaulting) are at least 0 |
| TeamModel.CastMatches | backend/src/models/team.model.js:47 | the embedded matches are cast one by one, keeping their order |
| TeamModel.AllMatchErrors | backend/src/models/team.model.js:47 | the embedded matches report no error exactly when every one of them is valid |
| TeamModel.CastTeam | backend/src/models/team.model.js:38-58 | a team saves exactly when it has a name and all its matches are valid; the stored team keeps the player list as given (order and repeats) and defaults wins and losses to 0; a failure carries at least one error |
| TeamModel.CountersIndependentOfMatches | backend/src/models/team.model.js:48-55 | whether a team saves does not depend on its wins and losses: they are stored counters, not checked against the matches |
| UserModel.TeamWithDefault | backend/src/models/user.model.js:21-25 | an absent team becomes 'None'; a given one is kept |
| UserModel.CastUser | backend/src/models/user.model.js:3-40 | a user saves exactly when first name, last name, email, password and position are non-empty, the jersey number is given and a given team is non-empty; the stored user takes the team default and isAdmin defaults to false; a failure lists the schema's errors |
| UserModel.DefaultTeamIsTruthy | backend/src/models/user.model.js:24 | a user created without a team gets the team 'None', which is truthy |
| Store.FindUser | backend/src/controllers/admin.controller.js:23 | the index found holds a user with the id, and none is found only when no user has it |
| Store.FindUserByEmail | backend/src/controllers/auth.controller.js:11 | the index found holds a user with the email, and none is found only when no user has it |
| Store.FindTeam | backend/src/controllers/admin.controller.js:121-125 | the index found holds a team with the id, and none is found only when no team has it |
| Store.FirstTeamNamed | backend/src/controllers/admin.controller.js:42-45 | the index found is the first team with the name; none is found only when no team has it |
| Store.Pull | backend/src/controllers/admin.controller.js:44 | every occurrence of the id is removed, every other element keeps its count and order |
| Store.AddToSet | backend/src/controllers/admin.controller.js:52 | the id is appended only when absent: the old list is a prefix, the id occurs once if it was absent and as often as before otherwise, other counts are unchanged |
| Store.AddToSetIdempotent | backend/src/controllers/admin.controller.js:50-53 | adding the same id twice is adding it once |
| Store.PullIdempotent | backend/src/controllers/admin.controller.js:42-45 | pulling the same id twice is pulling it once |
| Store.PullFromTeamNamed | backend/src/controllers/admin.controller.js:42-45 | only the first team with the name changes, and only in its player list, which becomes the pull of the id |
| Store.AddToTeamNamed | backend/src/controllers/admin.controller.js:50-53 | only the first team with the name changes, and only in its player list, which gets the id added as a set element |
| Store.FirstTeamNamedOnlyPlayersChanged | backend/src/controllers/admin.controller.js:39-55 | after edits of player lists only, the first team with a given name is the same team |
| Store.ReplaceUserKeepsWellformed | backend/src/models/user.model.js:12-16 | replacing a user by one with the same id and an email no other user has keeps ids distinct and emails unique |
| Store.PlayersEditKeepsWellformed | backend/src/controllers/admin.controller.js:39-55 | edits of the teams' player lists keep the store invariant |
| Store.Database.constructor | backend/src/models/user.model.js:12-16 | the empty store satisfies the invariant |
| AdminController.Sanitize | backend/src/controllers/admin.controller.js:19-20 | the update loses its password and isAdmin keys and keeps every other key |
| AdminController.SanitizedUpdateKeepsCredentials | backend/src/controllers/admin.controller.js:19-32 | a sanitized update never changes a user's id, password or admin flag; the team changes only when the update has a team key |
| AdminController.MoveOnlyTouchesPlayers | backend/src/controllers/admin.controller.js:39-55 | the roster step keeps every team's id, name, matches and counters and changes only the old and new teams' player lists |
| AdminController.MoveToSameTeamChangesNothing | backend/src/controllers/admin.controller.js:39 | when the team value is unchanged no team document is modified |
| AdminController.MoveLeavesOldTeam | backend/src/controllers/admin.controller.js:39-46 | when the team value changes and the old team is non-empty, the user's id no longer occurs in the first team of that name, and every other player keeps its count there |
| AdminController.MoveJoinsNewTeam | backend/src/controllers/admin.controller.js:48-54 | when the team value changes to a non-empty name, the user's id is in the first team of that name afterwards, added once with set semantics, and every other player keeps its count |
| AdminController.MoveWithoutTeamKeyPulls | backend/src/controllers/admin.controller.js:24-46 | an update without a team key pulls the user from their old team and adds them nowhere |
| AdminController.UpdateUser | backend/src/controllers/admin.controller.js:13-62 | an unknown id or an email taken by another user answers 500 and changes nothing; otherwise the user is patched without password or admin changes, the rosters move as the lemmas above state, the reply is the user without password, and the store invariant holds |
| AdminController.DeleteUser | backend/src/controllers/admin.controller.js:64-90 | an unknown id answers 404 and changes nothing; otherwise the user is pulled from the first team named by a non-empty team field, removed from the users, and the reply is 'User deleted successfully'; afterwards no user has the id |
| AdminController.CreateTeam | backend/src/controllers/admin.controller.js:109-117 | an invalid team answers 500 'Error creating team' and changes nothing; a valid one is appended under a fresh id and returned with 201; users are untouched |
| AdminController.UpdateTeam | backend/src/controllers/admin.controller.js:119-134 | an unknown team id answers 404 'Team not found'; otherwise only that team is patched and returned; users are untouched |
| AdminController.DeleteTeam | backend/src/controllers/admin.controller.js:136-145 | an unknown team id answers 404; otherwise that team is removed and no team has the id afterwards; users (and their team fields) are untouched |
| AuthController.Register | backend/src/controllers/auth.controller.js:8-34 | a sign-up is refused as a duplicate exactly when a stored user has the email; a registered user carries the submitted email, the hash of the password, no admin flag and an email no stored user has |
| AuthController.RegisterKeepsEmailsUnique | backend/src/controllers/auth.controller.js:11-16 | appending a registered user keeps emails unique |
| AuthController.Signup | backend/src/controllers/auth.controller.js:5-64 | a refused sign-up answers 400 for a taken email and 500 otherwise and stores nothing; an accepted one appends the user and answers 201 with a token for its id and a summary without password or admin flag |
| AuthController.Login | backend/src/controllers/auth.controller.js:66-112 | 401 'Email not found' exactly when no user has the email; for the first user with the email: 500 'Error logging in' without a password, 401 'Incorrect password' when `compare` rejects it, otherwise 200 with a token for that user's id and that user's summary; with unique emails, login succeeds exactly when a user with the email has a password that `compare` accepts |
| AuthController.SignupThenLogin | backend/src/controllers/auth.controller.js:5-106 | logging in right after signing up, with the same email and password, yields the new user's token and summary |
| AuthMiddleware.Split | backend/src/middleware/auth.middleware.js:5 | the fields joined with the separator give back the string, and no field holds the separator |
| AuthMiddleware.SplitJoin | backend/src/middleware/auth.middleware.js:5 | splitting undoes joining fields that hold no separator |
| AuthMiddleware.SecondField | backend/src/middleware/auth.middleware.js:5 | a second field exists exactly when the header holds a space |
| AuthMiddleware.SchemeIgnored | backend/src/middleware/auth.middleware.js:5 | any scheme word in front of the token is accepted, not just 'Bearer' |
| AuthMiddleware.Authenticate | backend/src/middleware/auth.middleware.js:3-16 | a request whose token verifies passes on with `userData` set to the token's user id; every other request (no header, no second field, failed verification) answers 401 'Authentication failed' and keeps its `userData` |
| AdminMiddleware.AdminGate | backend/src/middleware/admin.middleware.js:3-13 | no `userData` answers 401; passing on implies the id belongs to a stored admin; with distinct ids, passing on happens exactly for admins; every other outcome is 403 'Access denied: Admin only' |
| AdminMiddleware.AdminRouteAccess | backend/src/middleware/admin.middleware.js:5-9 | through both middlewares, a request reaches an admin handler exactly when its token verifies to the id of a stored admin |
| AdminMiddleware.NonAdminForbidden | backend/src/middleware/admin.middleware.js:6-7 | an authenticated non-admin gets 403, not 401 |
| StatRoutes.MissingOf | backend/src/routes/stat.routes.js:13-18 | at most one message per checked field, and none exactly when every checked field is present and non-empty |
| StatRoutes.MissingErrorsUnfold | backend/src/routes/stat.routes.js:15-18 | the error list is the userId, team, action and result messages, in that order, each only for a falsy field |
| StatRoutes.MissingErrorsEmptyIff | backend/src/routes/stat.routes.js:13-20 | the error list is empty exactly when all four fields are truthy; playerName and matchId do not affect it |
| StatRoutes.MissingErrorsOrder | backend/src/routes/stat.routes.js:15-18 | with only userId given, the list is 'team is missing', 'action is missing', 'result is missing' |
| StatRoutes.RouteRecord | backend/src/routes/stat.routes.js:29-34 | the record handed to the schema carries the four checked fields and drops playerName and matchId |
| StatRoutes.RouteRecordAlwaysRejected | backend/src/routes/stat.routes.js:29-48 | every record the route builds is rejected by the stat schema, which reports both matchId and playerName as required |
| StatRoutes.StatCollection.constructor | backend/src/routes/stat.routes.js:6 | the collection starts empty |
| StatRoutes.Post | backend/src/routes/stat.routes.js:6-49 | the collection never changes and the answer is never 201: missing fields answer 400 with the full error list, anything else 500 with the schema's errors |
| StatRoutes.InsertByTime | backend/src/routes/stat.routes.js:55 | inserting a stat into a newest-first list keeps it newest first, one longer, with the new stat or the old head in front |
| StatRoutes.InsertByTimeAdds | backend/src/routes/stat.routes.js:55 | inserting adds exactly that stat: the result is a permutation of the list plus the stat |
| StatRoutes.SortNewestFirst | backend/src/routes/stat.routes.js:55 | the sorted list is newest first and a permutation of the input |
| StatRoutes.Select | backend/src/routes/stat.routes.js:54 | the selection holds each stat satisfying the filter as often as the input, and nothing else |
| StatRoutes.GetByUser | backend/src/routes/stat.routes.js:52-60 | the answer is newest first and holds exactly the stored stats of that user, each as often as stored |
| StatRoutes.GetByTeam | backend/src/routes/stat.routes.js:63-71 | the answer is newest first and holds exactly the stored stats of that team, each as often as stored |
| StatConstants.SameKeys | frontend/src/utils/statConstants.js:1-17 | both tables are keyed by exactly the six actions, 'Serve Recieve' spelled alike in both |
| StatConstants.SuccessIsValid | frontend/src/utils/statConstants.js:1-17 | every success result is a valid result of its action |
| StatConstants.ErrorValidNeverSuccess | frontend/src/utils/statConstants.js:1-17 | 'Error' is a valid result of every action and a success of none |
| StatConstants.NoDuplicateResults | frontend/src/utils/statConstants.js:2-16 | no result list of either table repeats an entry |
| ProfilePage.CountPositiveIff | frontend/src/pages/ProfilePage.js:470-474 | a filtered count is positive exactly when some play passes the filter |
| ProfilePage.CountPermutation | frontend/src/pages/ProfilePage.js:470-474 | a filtered count does not depend on the order of the plays |
| ProfilePage.SummaryCounts | frontend/src/pages/ProfilePage.js:229-244 | an action has an entry exactly when some play has it, and its total is the number of such plays; a result has a count exactly when some play has that action and result, and the count is the number of such plays |
| ProfilePage.CalculateStats | frontend/src/pages/ProfilePage.js:226-247 | no stats list gives null; otherwise the loop's accumulator is the per-action summary of the plays |
| ProfilePage.SummaryKeys | frontend/src/pages/ProfilePage.js:229-237 | only actions that occur get an entry, every total is at least 1, and every result count is at least 1 |
| ProfilePage.SummaryOrderIndependent | frontend/src/pages/ProfilePage.js:229-244 | the summary does not depend on the order of the plays |
| ProfilePage.ResultsSumToTotal | frontend/src/pages/ProfilePage.js:237-241 | for every action, its result counts add up to its total |
| ProfilePage.VisibleActions | frontend/src/pages/ProfilePage.js:467-468 | the rows shown are the summary's actions that match the action selector, where 'all' matches every action, kept in the order of the summary's entries |
| ProfilePage.RowCountBounds | frontend/src/pages/ProfilePage.js:470-474 | with both selectors at 'all' a row shows the action's total; any selection shows no more; a result selection over all matches shows that result's count |
| ProfilePage.GetSuccessRate | frontend/src/pages/ProfilePage.js:250-260 | success means exact, case-sensitive membership in the page's table, and is false for an action the table lacks |
| ProfilePage.SuccessRateDisagrees | frontend/src/pages/ProfilePage.js:250-260 | the page and the shared table agree on a success only for ('Spike', 'Kill'); ('Serve', 'Ace') is a shared success but not the page's; 'Dig' is never a success on the page |
| ProfilePage.GetUserId | frontend/src/pages/ProfilePage.js:62-64 | the id is `id` when truthy, otherwise `_id`, and nothing for no user |
| SignupForm.EmailSound | frontend/src/components/SignupForm.js:14-17 | every email the scan accepts has a non-empty local part, one '@', and a domain with a '.' that has a character on each side, with no whitespace |
| SignupForm.EmailComplete | frontend/src/components/SignupForm.js:14-17 | every string of that shape is accepted by the scan |
| SignupForm.IsValidEmailIff | frontend/src/components/SignupForm.js:14-17 | `isValidEmail` holds exactly for strings of that shape |
| SignupForm.HasDigit | frontend/src/components/SignupForm.js:20 | true exactly when some character is a digit |
| SignupForm.HasUpper | frontend/src/components/SignupForm.js:21 | true exactly when some character is an upper-case letter A-Z |
| SignupForm.IsValidPassword | frontend/src/components/SignupForm.js:19-24 | a password is valid exactly when it has at least 8 characters, a digit and an upper-case letter |
| SignupForm.SubmitErrors | frontend/src/components/SignupForm.js:111-120 | first name, last name, team, position and jersey number are flagged exactly when empty; email exactly when empty or not of the email shape; password exactly when empty or weak; confirmation exactly when empty or different |
| SignupForm.SubmitProceedsIff | frontend/src/components/SignupForm.js:111-127 | a submit goes ahead exactly when every field is filled in, the email has the shape, the password is valid and the confirmation equals it |
| SignupForm.JerseyRangeNotChecked | frontend/src/components/SignupForm.js:119 | a jersey number of '150' is not flagged: the 0-99 range is only an input attribute |
| SignupForm.SignupFormState.constructor | frontend/src/components/SignupForm.js:31-52 | every field starts empty and unflagged |
| SignupForm.SignupFormState.HandleChange | frontend/src/components/SignupForm.js:70-105 | the value is stored; email and password are flagged only when non-empty and invalid; a password change re-checks the confirmation against it; the confirmation is compared with the password before this change; any other field's flag is cleared |
| SignupForm.SignupFormState.HandleSubmit | frontend/src/components/SignupForm.js:107-130 | the flags become the submit flags of the data, and the submit goes ahead exactly when none is set |
| SignupPage.SearchFrom | frontend/src/pages/SignupPage.js:72 | the scan finds a match exactly when one starts at or after the given position |
| SignupPage.LooseEmailTestIff | frontend/src/pages/SignupPage.js:72 | the page's email test holds exactly when some part of the string is non-spaces, '@', non-spaces, '.', non-spaces |
| SignupPage.LooserThanForm | frontend/src/pages/SignupPage.js:72 | every email the sign-up form accepts is accepted by the page |
| SignupPage.EmailPatternHasNoSpace | frontend/src/components/SignupForm.js:15 | an email the form accepts holds no whitespace |
| SignupPage.StrictlyLooserThanForm | frontend/src/pages/SignupPage.js:72 | 'see a@b.co now' passes the page's test and fails the form's |
| SignupPage.DigitsValue | frontend/src/pages/SignupPage.js:77 | a digit string's value is positive exactly when some digit is not 0 |
| SignupPage.BelowZeroIff | frontend/src/pages/SignupPage.js:77 | a jersey number is below zero exactly when it is a minus sign followed by digits that are not all 0 |
| SignupPage.PageErrors | frontend/src/pages/SignupPage.js:69-78 | names, team and position are flagged exactly when empty; email exactly when empty or failing the loose test; password exactly when shorter than 6; confirmation exactly when different; jersey number exactly when empty or below zero |
| SignupPage.PageEdgeCases | frontend/src/pages/SignupPage.js:73-75 | two empty passwords raise no confirmation flag (the password itself is flagged), and the team 'None' is accepted |
| SignupPage.SignupPageState.constructor | frontend/src/pages/SignupPage.js:19-39 | every field starts empty and unflagged, with no message and no sign-up call |
| SignupPage.SignupPageState.HandleSubmit | frontend/src/pages/SignupPage.js:64-92 | the message is cleared and the flags recomputed; with a flag set nothing is sent; otherwise the form data is sent once, and the page either goes to the login page or, when the service throws its message string, stores that string's undefined `message`, so no alert is ever shown |
| StatEntry.ResultsOf | frontend/src/components/StatEntry.js:28-34 | an action has results exactly when it is in the table, and they are its table entry |
| StatEntry.TableShape | frontend/src/components/StatEntry.js:28-34 | five distinct actions, each with exactly three distinct results |
| StatEntry.Payload | frontend/src/components/StatEntry.js:56-63 | the payload carries the player's id, the team name, the match id, the action and result, and the player's first and last name joined by one space |
| StatEntry.FailureMessage | frontend/src/components/StatEntry.js:92-96 | the server's message when it is non-empty, otherwise 'Error recording stat' |
| StatEntry.PayloadNeverStored | frontend/src/components/StatEntry.js:56-96 | a payload with its four checked fields filled passes the route's field check but is rejected by the schema, so the panel shows 'Error recording stat' |
| StatEntry.StatEntryPanel.constructor | frontend/src/components/StatEntry.js:21-26 | nothing is selected, the snackbar is closed and nothing has been posted |
| StatEntry.StatEntryPanel.OfferedActions | frontend/src/components/StatEntry.js:135-153 | no action buttons without a player; all the table's actions with one |
| StatEntry.StatEntryPanel.OfferedResults | frontend/src/components/StatEntry.js:158-164 | no result buttons without an action; exactly that action's results with one |
| StatEntry.StatEntryPanel.HandlePlayerSelect | frontend/src/components/StatEntry.js:41-45 | the player is set and both action and result are cleared |
| StatEntry.StatEntryPanel.HandleActionSelect | frontend/src/components/StatEntry.js:47-50 | the action is set, the result cleared and the player kept |
| StatEntry.StatEntryPanel.HandleResultSelect | frontend/src/components/StatEntry.js:52-98 | with no player nothing is posted and the error snackbar shows the fixed message; otherwise the payload is posted once; success clears action and result, keeps the player and shows the success message; failure keeps the selections and shows the failure message |
| DataEntryPage.ResultsOf | frontend/src/pages/DataEntryPage.js:16-22 | an action has results exactly when it is in the table, and they are its table entry |
| DataEntryPage.TableShape | frontend/src/pages/DataEntryPage.js:16-22 | five actions; Serve and Spike have four results, Dig, Block and Set three |
| DataEntryPage.TablesDisagree | frontend/src/pages/DataEntryPage.js:16-22 | the page and the stat entry panel name the same actions but offer different results for every one |
| DataEntryPage.DataEntryState.constructor | frontend/src/pages/DataEntryPage.js:13-14 | no player and no action are selected |
| DataEntryPage.DataEntryState.OfferedActions | frontend/src/pages/DataEntryPage.js:51-59 | no action buttons without a player; all the table's actions with one |
| DataEntryPage.DataEntryState.OfferedResults | frontend/src/pages/DataEntryPage.js:76-84 | no result buttons without an action; exactly that action's results with one |
| DataEntryPage.DataEntryState.SelectPlayer | frontend/src/pages/DataEntryPage.js:40 | the player becomes 'Player 1' and the action is kept |
| DataEntryPage.DataEntryState.SelectAction | frontend/src/pages/DataEntryPage.js:63 | the action is set and the player kept |
| DataEntryPage.DataEntryState.SelectResult | frontend/src/pages/DataEntryPage.js:88-92 | whichever result is chosen, both selections are cleared and nothing is recorded |
| TeamManagement.TeamObject.constructor | frontend/src/components/TeamManagement.js:82-86 | the team object holds the given fields |
| TeamManagement.FindTeam | frontend/src/components/TeamManagement.js:83 | the index found is the first team with the id; none is found only when no team has it |
| TeamManagement.RowToggle | frontend/src/components/TeamManagement.js:101-103 | the clicked row ends expanded exactly when it was not; otherwise no row is expanded |
| TeamManagement.RowToggleTwice | frontend/src/components/TeamManagement.js:101-103 | clicking a row twice restores an expanded or collapsed panel; if another row was expanded, everything ends collapsed |
| TeamManagement.TeamPanel.constructor | frontend/src/components/TeamManagement.js:30-45 | dialogs closed, nothing selected or expanded, empty team form, and a match form dated today with a 0-0 score |
| TeamManagement.TeamPanel.HandleOpen | frontend/src/components/TeamManagement.js:47-66 | the dialog opens; editing loads name, wins, losses and players from the team, creating starts from the empty form |
| TeamManagement.TeamPanel.HandleClose | frontend/src/components/TeamManagement.js:68-71 | the dialog closes and the selection is cleared |
| TeamManagement.TeamPanel.HandleSubmit | frontend/src/components/TeamManagement.js:73-80 | with a selected team the update callback gets its id and the form, otherwise the create callback gets the form; then the dialog closes and the selection is cleared |
| TeamManagement.TeamPanel.HandleAddMatch | frontend/src/components/TeamManagement.js:82-95 | the first team with the id gets the form's match appended after its existing ones, in place, with name, players, wins and losses unchanged; the changed team goes to the update callback and the match form resets; an unknown id changes nothing |
| TeamManagement.TeamPanel.HandleRowClick | frontend/src/components/TeamManagement.js:101-103 | the expanded row toggles as `RowToggle` states; nothing else changes |
| AdminDashboard.SearchUsers | frontend/src/pages/AdminDashboard.js:58-64 | a user is listed exactly when the lower-cased query occurs in the lower-cased first name, last name or email; listed users keep their input order and multiplicity |
| AdminDashboard.EmptyQueryListsAll | frontend/src/pages/AdminDashboard.js:59-63 | an empty query lists every user |
| AdminDashboard.CaseInsensitive | frontend/src/pages/AdminDashboard.js:60-62 | queries that lower-case alike list the same users |
| AdminDashboard.LowerCaseQuery | frontend/src/pages/AdminDashboard.js:60-62 | typing the query in lower case changes nothing |
| YouTubePlayer.MarkerLen | frontend/src/components/YouTubePlayer.js:8 | a marker found at a position lies entirely within the string |
| YouTubePlayer.MarkerNeedsPunctuation | frontend/src/components/YouTubePlayer.js:8 | every marker holds a '/' or an '&', or is `watch?v=` |
| YouTubePlayer.NoMarkerWithoutPunctuation | frontend/src/components/YouTubePlayer.js:8 | text without '/', '&' or "?v" holds no marker |
| YouTubePlayer.LastMarker | frontend/src/components/YouTubePlayer.js:8 | the marker found is the last one starting at or before the position; none is found only when there is none |
| YouTubePlayer.LineEnd | frontend/src/components/YouTubePlayer.js:8 | the first line holds no line terminator and ends at one or at the end of the string |
| YouTubePlayer.IdRun | frontend/src/components/YouTubePlayer.js:8 | the run is the longest block from the position without '#', '&' or '?' |
| YouTubePlayer.GetVideoId | frontend/src/components/YouTubePlayer.js:7-11 | an id found has exactly 11 characters and none of '#', '&', '?' |
| YouTubePlayer.NoMarkerNoId | frontend/src/components/YouTubePlayer.js:7-11 | a URL with no marker on its first line gives no id |
| YouTubePlayer.EmbedSrc | frontend/src/components/YouTubePlayer.js:38 | the source is the embed prefix, then the id, then '?rel=0' |
| YouTubePlayer.PlayerSource | frontend/src/components/YouTubePlayer.js:5-14 | a falsy URL renders nothing; otherwise the player renders exactly when an id is found, with that id's embed source |
| YouTubePlayer.ExtractAfterMarker | frontend/src/components/YouTubePlayer.js:7-11 | on a one-line URL whose last marker is at a position, the id is the run after that marker when it has 11 characters and nothing otherwise |
| YouTubePlayer.EmbedRoundTrip | frontend/src/components/YouTubePlayer.js:7-38 | the embed source of an 11-character id gives that id back, and the player renders it |
| YouTubePlayer.WatchRoundTrip | frontend/src/components/YouTubePlayer.js:7-11 | a `youtube.com/watch?v=` URL gives back its id when it has 11 characters and nothing otherwise |
| YouTubePlayer.ShortRoundTrip | frontend/src/components/YouTubePlayer.js:7-11 | a `youtu.be/` URL gives back its id when it has 11 characters and nothing otherwise |
| YouTubePlayer.LastMarkerWins | frontend/src/components/YouTubePlayer.js:8 | with two markers, the id after the last one is taken |

## Left out

- Persistence and wiring: the server entry points, the route mounting, `user.routes.js`, `team.routes.js` and the unused `match.model.js` are not part of this model. The collections live in memory, and ObjectIds are natural numbers drawn from a counter.
- Mongo mechanics: `populate`, projections, `timestamps: true` and type casting (an ObjectId string, a number given as a string) are not modelled. Scores and jersey numbers are integers.
- Concurrency: the roster update in `updateUser` spans several documents and is not atomic. The model runs its steps in sequence and does not interleave requests.
- Cryptography: bcrypt and JWT are the parameters `hash`, `compare`, `sign` and `verify`. The token expiry ('24h') and the secret live inside them, and time is not modelled.
- AuthController.Signup, AuthController.Login: an absent email is taken to match no stored user. Mongoose may drop an undefined filter key, so `findOne` could instead return the first user; a login without an email would then check the password against that user's hash and could succeed as that user.
- Time: `Date.now` and `new Date()` defaults are the parameters `now` and `today`. `toLocaleDateString` and the lodash `debounce` are not modelled.
- Floating point: `formatPercentage` in the profile page and the win-rate expression in the team page are not modelled.
- Lengths and the regular-expression `.` count characters, not UTF-16 code units as JavaScript's `.length` and `.` do. This affects the password-length checks, the 11-character id check and the `.` in `youtu.be`; a character outside the Basic Multilingual Plane counts once here and twice in JavaScript.
- ProfilePage.CalculateStats, ProfilePage.SummaryCounts, ProfilePage.SummaryKeys, ProfilePage.ResultsSumToTotal, ProfilePage.GetSuccessRate: the page's plain objects are modelled as maps, so keys that name `Object.prototype` members ('constructor', '__proto__', 'toString', ...) are treated as ordinary keys. In JavaScript such a result key makes the tally NaN ('constructor') or is dropped ('__proto__'). Such an action key makes the reduce throw a TypeError, and so does `getSuccessRate` with such an action, where the model returns false. Stored actions are limited by the schema's enumeration, and `getSuccessRate` has no caller.
- Character classes: whitespace (`\s`, `\S`, `trim`), word characters (`\w`) and `toLowerCase` are limited to ASCII.
- SignupPage.PageErrors: the jersey-number comparison `< 0` is modelled only on the integer forms (`digits` and `-digits`). Other text such as "-1.5" is treated as not below zero, although JavaScript would flag it.
- StatEntry.StatEntryPanel.HandleActionSelect: requires an action from the table. The component only calls it from the table's buttons.
- DataEntryPage.DataEntryState.SelectAction: requires an action that is on screen. Only the on-screen buttons call it.
- DataEntryPage.DataEntryState.SelectResult: requires a result that is on screen. Only the on-screen buttons call it.
- Browser and network: the HTTP services (`admin.service.js`, `auth.service.js`, `team.service.js`), `localStorage`, the console logging and the profile page's email-availability check (`ProfilePage.js:99-118`) are not modelled. A post's outcome and a sign-up's reply are parameters.
- The profile page's editing and loading handlers and the team page's rendering are presentation only. So are the other pages and components (`App.js`, `HomePage.js`, `LoginPage.js`, `Navbar.js`, `EditUserModal.js`, `PrivateRoute.js`, `MyTeamPage.js`).
- The admin dashboard's edit, delete and save handlers are not modelled: each only forwards to an HTTP service.
- AdminController.UpdateUser: a patch value of the wrong type (which Mongoose would reject with a cast error, answered with 500) is not modelled, because patch fields are typed.
