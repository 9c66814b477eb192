# Score ledger and form validators of the NEA match tracker

This project models, in Dafny, the two parts of the match-tracking web
application that carry behaviour of their own:

- **The score table and the `match` view** (`app/routes.py`). A `Score` row
  joins a user to a match and holds a `turn_number` and a `score`. When the
  signed-in user posts a score for a match, the view reads the turn numbers
  that user already has in that match and sorts them in descending order. The
  new row gets the first of them plus 1, or 1 when there is none. Exactly one
  row is appended, and the page lists the match's rows. The test case adds a
  score and removes it again, and checks the per-user and per-match lists
  before and after.
- **The form validators** (`app/forms.py`). Each form is a list of fields,
  and each field has a chain of WTForms validators: `DataRequired`,
  `Optional`, `Length`, `NumberRange`, `EqualTo`, `Email`, and the
  registration form's own `validate_username`.

Modules:

- `Wrappers` (`wrappers.dfy`): `Option`.
- `Scores` (`scores.dfy`): the `Score` row and the queries over a table of
  rows. It also holds the next-turn allocation, the (user, match, turn)
  uniqueness invariant, and the lemmas about successive submissions and
  removal.
- `Ledger` (`ledger.dfy`): class `ScoreTable`, whose `rows: seq<Score>` field
  `Add` and `Remove` update in place. `ScoresOfUser` and `ScoresOfMatch` are
  its queries. `ScoreLifecycle` replays the test's add-then-remove scenario.
- `Validators` (`validators.dfy`): the validators and the way a field runs its
  chain. A field receives the submitted text. A string field's data is that
  text. An integer field's data is the parsed integer; text that does not
  parse leaves no data and records a "not an integer" error before the chain
  runs. An `Optional` on absent or blank text clears the errors and stops the
  chain. A `DataRequired` on a field without data replaces the errors with
  its own and stops the chain. Any other failing validator adds an error and
  the chain goes on.
- `Forms` (`forms.dfy`): the seven forms declared field by field as in
  `app/forms.py`, with one lemma per form saying exactly which submissions it
  accepts.
- `Routes` (`routes.dfy`): the `match` view as a method on a `ScoreTable`.

What the code does, and the model with it:

- A submission never updates an existing row. Every accepted submission
  appends a new row under the pair's next turn.
- Turn numbers have no upper bound: the eleventh submission gets turn 11
  (`SuccessiveTurns`).
- `AddScoreForm` has no range check, so a score of 28 or -1 is accepted
  (`AddScoreAccepts`). Only the ten-turn editor limits values to 0..27
  (`EditScoresAccepts`).
- app/models.py does not declare `Score` in this revision (app/routes.py:14
  and tests.py:8 import it anyway), so no constraint on (user, match, turn)
  is visible. The row shape is taken from app/routes.py:146-151 and
  tests.py:54. The model proves that every add and every remove keeps the
  triples unique.

## Model

| member | source | states |
|---|---|---|
| `Scores.Select` | app/routes.py:162 | a query returns exactly the rows of the table that satisfy its filter (by user, by match, by user and match, or every row except those equal to a given row), each as often as it occurs in the table, never more rows than the table has |
| `Scores.MaxTurn` | app/routes.py:135-142 | the value taken is one of the pair's turn numbers and is at least every one of them |
| `Scores.NextTurn` | app/routes.py:141-144 | the new turn is 1 when the pair has no turns; otherwise it is one more than an existing turn, and it exceeds every existing turn |
| `Scores.FirstOfDescendingOrder` | app/routes.py:135-142 | taking the first element of any descending ordering of the pair's turns and adding 1 gives `NextTurn`, whatever order equal turns come in |
| `Scores.NextTurnFor` | app/routes.py:135-144 | the turn of the pair's next score: 1 when the pair has no turns in the table; otherwise one more than one of its turns, and above all of them |
| `Scores.NextTurnForRows` | app/routes.py:135-144 | the next turn read off the table: 1 when no row belongs to the (user, match) pair; otherwise some row of the pair has the turn just below it, and every row of the pair has a smaller turn |
| `Scores.Allocate` | app/routes.py:146-151 | the inserted row carries the signed-in user, the match and the submitted score; its turn is above every turn the pair already holds, so the table does not already contain it |
| `Scores.AllocationIgnoresOtherRows` | app/routes.py:137 | rows of other users or other matches, placed before or after, do not change the allocated turn |
| `Scores.AllocateKeepsTurnsUnique` | app/routes.py:135-151 | appending the allocated row to a table with unique (user, match, turn) triples keeps them unique |
| `Scores.SuccessiveRows` | app/routes.py:141-154 | when the pair holds turns 1..d, k submissions append exactly k rows, numbered d+1..d+k, carrying the submitted values in order, and change no existing row |
| `Scores.SuccessiveTurns` | app/routes.py:141-144 | when the pair holds turns 1..d, after k submissions it holds exactly turns 1..d+k |
| `Scores.FirstSubmissionsNumberedFromOne` | app/routes.py:141-144 | starting from a pair with no scores, k submissions give the pair exactly the turns 1..k |
| `Scores.SelectKeepsTurnsUnique` | tests.py:63-71 | removing rows (any filter) from a table with unique triples leaves them unique |
| `Scores.RemoveDropsOneRow` | tests.py:63-71 | with unique triples, removing a row that is in the table removes exactly one row |
| `Ledger.ScoreTable.constructor` | tests.py:48-51 | a new table is empty and valid, so every user's and every match's list starts empty |
| `Ledger.ScoreTable.ScoresOfUser` | tests.py:58 | the user's list holds exactly the table's rows with that `user_id`, each as often as in the table |
| `Ledger.ScoreTable.ScoresOfMatch` | app/routes.py:162 | the match's list holds exactly the table's rows with that `match_id`, each as often as in the table |
| `Ledger.ScoreTable.Add` | app/routes.py:146-154 | appends exactly one row, carrying the user, the match, the allocated turn and the value; the turn exceeds every earlier turn of the pair; no existing row changes; the match's list gains the new row at its end; other matches' lists are unchanged; uniqueness is kept |
| `Ledger.ScoreTable.Remove` | tests.py:63-71 | the table is the old one without the removed row, in the same order; neither the user's nor the match's list contains the row; one row goes if it was present, none otherwise; uniqueness is kept |
| `Ledger.ScoreLifecycle` | tests.py:39-71 | in the test's scenario the user's list and the match's list are each empty, then hold exactly the added score (turn 1, score 5), then are empty again after its removal |
| `Forms.LoginAccepts` | app/forms.py:24-28 | the login form is accepted exactly when a username and a password are submitted |
| `Forms.RegistrationAccepts` | app/forms.py:31-45 | registration is accepted exactly when: the username has 1..50 characters and no existing user holds it; the e-mail passes the address check; a forename and a surname are present; the password has at least 6 characters; the repeated password equals it |
| `Forms.NewUsernameAccepts` | app/forms.py:32-45 | the registration username field is accepted exactly when it holds 1..50 characters and no existing user has that username |
| `Forms.UpdateProfileAccepts` | app/forms.py:48-51 | the profile form is accepted exactly when the username has 1..50 characters and the e-mail passes the address check |
| `Forms.ChangePasswordAccepts` | app/forms.py:53-60 | the password form is accepted exactly when the current password is present, the new password has at least 6 characters and the confirmation equals it |
| `Forms.MatchFormAccepts` | app/forms.py:63-67 | the match form is accepted exactly when opponent, location and date are all present |
| `Forms.AddScoreAccepts` | app/forms.py:70-72 | the score form is accepted exactly when a score is submitted whose text parses as an integer, whatever its value |
| `Forms.EditScoresShape` | app/forms.py:75-88 | the score editor has exactly ten integer fields, `turn_1`..`turn_10`, with distinct names, each `Optional` then `NumberRange(0, 27)` |
| `Forms.TurnFieldAccepts` | app/forms.py:76-87 | a turn field accepts its text exactly when it is absent or blank, or parses as an integer v with 0 <= v <= 27; text that is neither blank nor an integer is rejected |
| `Forms.EditScoresAccepts` | app/forms.py:75-88 | the score editor accepts a submission exactly when each of the ten turns is absent, blank, or an integer in 0..27 |
| `Routes.Accepted` | app/routes.py:133-134 | `validate_on_submit` on the score form is true exactly for a posted form whose `score` text parses as an integer |
| `Routes.MatchView` | app/routes.py:130-165 | an unknown match id gives "not found" and leaves the table unchanged; an accepted submission appends exactly the allocated row, carrying the parsed score; anything else leaves the table unchanged; for a known match the page lists exactly the match's rows, including a row just added |
## Left out

- Web plumbing: routing, templates, `flash`, redirects, sessions, login and
  logout, `@login_required`, the `before_request` update of `last_seen`, the
  login view's next-page handling, and CSRF protection inside
  `validate_on_submit`.
- Routes.MatchView: the signed-in user's id is a parameter. The route has no
  `@login_required`, and what an anonymous submission does is not modelled.
- Routes.MatchView: the usernames query (app/routes.py:156-161) calls
  `db.session.gquery`, a method the session object does not have. Python
  raises `AttributeError` at line 157, after the commit at line 154. So an
  accepted submission is stored, but no page is ever returned for a known
  match. The model's `MatchPage` response is the page lines 162-165 intend,
  and it carries only the match's score list.
- Routes: app/routes.py:7-13 imports `EditProfileForm` and `AddMatchForm`,
  which app/forms.py does not define, so importing app/routes.py fails as
  written. The model takes the forms from app/forms.py and the `match` view
  as if that import succeeded.
- The placeholder match lists of the `index` and `user` views, and the match
  creation view's date parsing. When parsing fails, the view leaves
  `match_date` None (app/routes.py:117). Date parsing belongs to a library.
- Concurrent submissions: the model is sequential. Two requests that read the
  same largest turn at the same time could both insert it; this is not
  modelled.
- Password hashing, the avatar URL and the e-mail syntax check are foreign
  libraries. The e-mail check is the `isEmail` parameter of
  `Validators.Context`.
- Validators.Apply: `DataRequired` is modelled as "the field has data": its
  text was submitted and, in an integer field, parses. WTForms' truthiness
  rule, under which a score of 0 or a blank string counts as missing, is
  library behaviour and is not modelled.
- Validators.Data: Python's `int()` parsing of an integer field's text is
  the `parseInt` parameter of `Validators.Context`, not a definition.
- Validators.IsBlank: blank means made of ASCII whitespace only. Python's
  `str.strip` also removes other Unicode whitespace.
- Validators.Apply: `EqualTo` reads the other field as a string field. Every
  `EqualTo` in app/forms.py names a password field.
- The `Score` model class is not declared in app/models.py, though
  app/routes.py:14 and tests.py:8 import it. Its columns and any storage
  constraints are therefore not modelled beyond the four fields
  app/routes.py:146-151 and tests.py:54 set.
- `User.remove_score` is not defined in app/models.py. `Remove` takes its
  meaning from the test case alone: the given row leaves the table.
- app/models.py, the migration, app/static/js/matches.js, app/__init__.py,
  app/errors.py and run.py are not part of this model. They hold ORM
  declarations, a schema migration, a browser confirmation dialog, the
  application factory, error handlers and the launcher.
