# Bracket integrity model

A Dafny model of the integrity layer of `brief_tournament`, a PHP service that
manages single-elimination tournament brackets: tournaments contain rounds,
rounds contain games, games oppose two teams and name a winner, and teams
enroll in tournaments through the `tournament_teams` pivot.

What is modelled:

- the five entities (`Team`, `Tournament`, `Round`, `Game`, `TournamentTeam`)
  as datatypes with optional attributes, and the store as one sequence of rows
  per table (`Entities`, `Store`);
- the rule engine behind `validate($data)`. Its primitives are `required`,
  `sometimes`, `numeric`, `min:N`, `max:N` and closures (`Validation`). The
  values it sees are null, ints and strings (`Values`);
- each model's `validationRules()` table, closure by closure (`GameModel`,
  `TournamentTeamModel`, `TournamentModel`, `RoundModel`, `TeamModel`);
- every declared relation (belongs-to, has-many, many-to-many through the
  pivot);
- `TournamentTeam::findByTournamentAndTeam`, as a loop over the enrollments;
- the control flow of the tournament endpoints (`TournamentRoutes`):
  - create validates the body as sent;
  - update validates the stored attributes merged with the body;
  - delete removes the tournament only once `find` has returned it.

Each closure gets a verdict lemma that states exactly when the field errors.
Each rule table, including both the written and the corrected game table,
gets an `Acceptable` predicate, and `ValidIff` (`IntendedValidIff` for the
corrected game table) proves that predicate equivalent to an empty error
map. Each relation is tied to its inverse or to the foreign key it follows. `BracketExamples` holds the
project's own examples on a small concrete store: two teams, one tournament
and one round.

The engine lives in a trait that is not part of this model, so its semantics
are stated in the `Validation` module header:

- `sometimes` skips an absent key;
- a field's rules run left to right, and the first failure is that field's
  only error;
- `required` rejects null and `''`;
- `numeric` rejects a non-blank value that is not number-like;
- `min`/`max` bound the length of a non-empty string.

The engine's own messages are placeholders ("required", "numeric", "min",
"max"). The closures' messages are the source's own strings.

## Model

| member | source | states |
|---|---|---|
| Values.CastInt | brief_tournament/src/Models/Game.php:51 | `(int)$value` maps an int to itself and an integer string to the integer it spells, saturating at `PHP_INT_MAX` / `PHP_INT_MIN` beyond the 64-bit range |
| Values.IntTextRoundTrip | brief_tournament/src/Models/Game.php:51 | parsing the decimal text of any integer gives the integer back, so `(int)` on an id's text recovers the id |
| Values.CastIntOfIntText | brief_tournament/src/Models/Game.php:51 | an id within the 64-bit range, sent as text, is number-like and casts to the same key as the int |
| Values.CastSaturatesAboveIntMax | brief_tournament/src/Models/Game.php:51 | the text of `PHP_INT_MAX + 1` is number-like and casts to `PHP_INT_MAX`, the same key as the text of `PHP_INT_MAX` |
| Store.Find | brief_tournament/src/Models/Game.php:51-54 | `find` returns nothing exactly when no row has the id; otherwise it returns a row with that id, and no earlier row has it |
| Store.BelongsTo | brief_tournament/src/Models/Game.php:98-101 | belongs-to yields a row exactly when the foreign key is set and some row carries it, and that row's id is the key |
| Store.FindUnique | brief_tournament/src/Models/Game.php:51-54 | when ids are unique, `find` on a stored row's id returns that row |
| Validation.RunChain | brief_tournament/src/Models/Game.php:49-56 | a field's rule list reports nothing exactly when every rule passes; otherwise it reports the first failing rule's error |
| Validation.Validate | brief_tournament/routes/tournaments.php:30 | the error map holds exactly the fields of the table whose rule list fails, each with that list's first error |
| Validation.RunChainOfThree | brief_tournament/src/Models/Tournament.php:50 | a three-rule list reports the first error among its three rules |
| Validation.OptionalNumericField | brief_tournament/src/Models/Game.php:57-64 | `[sometimes, numeric, closure]`: an absent key passes, a non-number fails with `numeric`, and only a blank or number-like value reaches the closure |
| Validation.RequiredNumericField | brief_tournament/src/Models/Game.php:49-56 | `[required, numeric, closure]`: blank fails with `required`, then a non-number fails with `numeric`, and only a present number reaches the closure |
| Validation.FieldErrorLocal | brief_tournament/src/Models/Tournament.php:56-65 | a field whose closures ignore the rest of the record gets the same verdict on two records that agree on that field |
| GameModel.RoundCheck | brief_tournament/src/Models/Game.php:49-56 | a non-blank round id errors exactly when no round has its cast id, with "Il round specificato non esiste" |
| GameModel.TeamCheck | brief_tournament/src/Models/Game.php:57-72 | a non-blank team id errors exactly when no team has its cast id, with that side's message |
| GameModel.NextGameCheck | brief_tournament/src/Models/Game.php:82-90 | a non-blank follow-up id errors exactly when no game has its cast id |
| GameModel.WinnerCheck | brief_tournament/src/Models/Game.php:75-81 | as written: a non-blank winner passes exactly when it is strictly equal to the value under `team1_id` or `team2_id`; a missing key reads as null |
| GameModel.IntendedWinnerCheck | brief_tournament/src/Models/Game.php:75-81 | corrected: a non-blank winner passes exactly when it is strictly equal to `id_team1` or `id_team2` |
| GameModel.ValidationRules | brief_tournament/src/Models/Game.php:46-93 | the table as written covers exactly the seven game fields; only `id_round` must be sent, every other field carries `sometimes` (for `next_game_id` in second place). What the table accepts is given by `GameModel.ValidIff` |
| GameModel.IntendedValidationRules | brief_tournament/src/Models/Game.php:46-93 | the corrected table covers the same seven fields with the same required and optional fields; what it accepts is given by `GameModel.IntendedValidIff` |
| GameModel.Errors | brief_tournament/src/Models/Game.php:46-93 | `Game::validate($data)` with the table as written reports only game fields, always reports a blank `id_round` with the `required` error, and reports no other field the data does not carry; its emptiness is decided by `GameModel.ValidIff` |
| GameModel.IntendedErrors | brief_tournament/src/Models/Game.php:46-93 | `validate($data)` with the corrected table has the same shape; its emptiness is decided by `GameModel.IntendedValidIff` |
| GameModel.Team1 | brief_tournament/src/Models/Game.php:98-101 | `team1()` yields a team exactly when `id_team1` is set and found, and that team's id is `id_team1` |
| GameModel.Team2 | brief_tournament/src/Models/Game.php:103-106 | `team2()` follows `id_team2` in the same way |
| GameModel.GameRound | brief_tournament/src/Models/Game.php:108-111 | `round()` follows `id_round` to the round table |
| GameModel.WinnerTeam | brief_tournament/src/Models/Game.php:113-116 | `winnerTeam()` follows `winner_team_id` to the team table |
| GameModel.RoundFieldVerdict | brief_tournament/src/Models/Game.php:49-56 | `id_round` errors exactly when it is blank, not numeric, or names no round; the message is the first of those that applies |
| GameModel.TeamFieldVerdict | brief_tournament/src/Models/Game.php:57-72 | a blank team id never errors; a non-blank one errors exactly when it is not numeric or names no team, with that side's message |
| GameModel.NextGameFieldVerdict | brief_tournament/src/Models/Game.php:82-90 | `next_game_id` errors exactly when it is non-blank and either not numeric or names no game; `sometimes` takes effect although it is listed second |
| GameModel.WinnerFieldVerdict | brief_tournament/src/Models/Game.php:75-81 | as written, a non-blank winner errors exactly when it is not numeric or equals neither `team1_id` nor `team2_id` |
| GameModel.WinnerAsWrittenRejectsContestants | brief_tournament/src/Models/Game.php:77 | a record without `team1_id`/`team2_id` keys, as every model record is, rejects every non-blank winner |
| GameModel.IntendedWinnerFieldVerdict | brief_tournament/src/Models/Game.php:75-81 | with the corrected closure, a non-blank winner errors exactly when it is not numeric or equals neither contestant |
| GameModel.GoalsUnrelatedToWinner | brief_tournament/src/Models/Game.php:73-74 | the goals are only checked for being numeric, and changing them never changes the winner's verdict |
| GameModel.CommonFieldVerdicts | brief_tournament/src/Models/Game.php:49-74 | whatever the winner closure, `id_round` passes exactly when present, numeric and found; each team id and `next_game_id` exactly when blank or numeric and found; each goals field exactly when blank or numeric |
| GameModel.ValidIff | brief_tournament/src/Models/Game.php:46-93 | the table as written: a game validates exactly when all seven fields are acceptable, with the winner compared against `team1_id` / `team2_id` |
| GameModel.IntendedValidIff | brief_tournament/src/Models/Game.php:46-93 | the corrected table: a game validates exactly when all seven fields are acceptable, with the winner compared against `id_team1` / `id_team2`; the two tables differ in nothing else |
| GameModel.GoalsOnlyUpdateKeepsWinner | brief_tournament/src/Models/Game.php:75-81 | re-validating a stored game with a contestant winner after changing only its goals: the corrected table keeps the winner valid, but as written the winner is rejected |
| TournamentModel.TournamentCheck | brief_tournament/src/Models/TournamentTeam.php:45-52 | the `id_tournament` closure of the enrollment and round tables (Round.php lines 44-51 are the same): a non-blank id errors exactly when no tournament has its cast id, with "Il torneo specificato non esiste" |
| TournamentTeamModel.TeamCheck | brief_tournament/src/Models/TournamentTeam.php:53-60 | a non-blank team id errors exactly when no team has its cast id |
| TournamentTeamModel.ValidationRules | brief_tournament/src/Models/TournamentTeam.php:42-72 | the table covers exactly `id_tournament`, `id_team`, `position` and `status`, each opening with `required` and none with `sometimes`; what it accepts is given by `TournamentTeamModel.ValidIff` |
| TournamentTeamModel.Errors | brief_tournament/src/Models/TournamentTeam.php:42-72 | `TournamentTeam::validate($data)` reports only those four fields, and each blank one with the `required` error; its emptiness is decided by `TournamentTeamModel.ValidIff` |
| TournamentTeamModel.PositionCheck | brief_tournament/src/Models/TournamentTeam.php:61-65 | null passes; a number-like slot errors exactly when it is below 1 or above 8 |
| TournamentTeamModel.StatusCheck | brief_tournament/src/Models/TournamentTeam.php:66-70 | the status passes exactly when it is the string "partecipating", "eliminated" or "winner"; null is rejected |
| TournamentTeamModel.PositionFieldVerdict | brief_tournament/src/Models/TournamentTeam.php:61-65 | `position` errors exactly when it is blank, not numeric, or outside 1..8; a present number gets the range message |
| TournamentTeamModel.PositionBounds | brief_tournament/src/Models/TournamentTeam.php:62 | for an int slot: 0, 9 and negatives fail, 1 and 8 pass |
| TournamentTeamModel.StatusFieldVerdict | brief_tournament/src/Models/TournamentTeam.php:66-70 | `status` errors exactly when it is not one of the three statuses |
| TournamentTeamModel.ForeignKeyVerdicts | brief_tournament/src/Models/TournamentTeam.php:45-60 | `id_tournament` (`id_team`) errors exactly when it is blank, not numeric, or no tournament (team) carries its cast id; a present numeric id errors exactly when no row carries it, and a blank one fails `required` |
| TournamentTeamModel.ValidIff | brief_tournament/src/Models/TournamentTeam.php:42-72 | an enrollment validates exactly when both ids name existing rows, the slot is in 1..8 and the status is allowed; no rule looks at existing enrollments |
| TournamentTeamModel.Matching | brief_tournament/src/Models/TournamentTeam.php:99-106 | the query's rows are exactly the stored enrollments with that tournament and that team |
| TournamentTeamModel.MatchingAppend | brief_tournament/src/Models/TournamentTeam.php:99-106 | the query over two runs of rows is the query over each, in order |
| TournamentTeamModel.FirstMatch | brief_tournament/src/Models/TournamentTeam.php:107 | `!empty($result) ? new static($result[0]) : null`: nothing exactly when no stored enrollment joins the pair, and otherwise a stored enrollment of the pair with none of the pair stored before it |
| TournamentTeamModel.FindByTournamentAndTeam | brief_tournament/src/Models/TournamentTeam.php:94-108 | returns the first stored enrollment of exactly that pair, and nothing exactly when no enrollment joins them |
| TournamentTeamModel.OtherPairsIrrelevant | brief_tournament/src/Models/TournamentTeam.php:99-107 | inserting an enrollment of any other pair anywhere leaves the lookup's answer unchanged |
| TournamentTeamModel.EnrollmentJoinsBothSides | brief_tournament/src/Models/TournamentTeam.php:78-86 | a stored enrollment whose tournament and team are both found puts the team among the tournament's `teams()` and the tournament among the team's `tournaments()` |
| TournamentTeamModel.EnrolledTournament | brief_tournament/src/Models/TournamentTeam.php:78-81 | `tournament()` yields a tournament exactly when `id_tournament` is set and found, and that tournament's id is `id_tournament` |
| TournamentTeamModel.EnrolledTeam | brief_tournament/src/Models/TournamentTeam.php:83-86 | `team()` yields a team exactly when `id_team` is set and found, and that team's id is `id_team` |
| TournamentModel.StatusCheck | brief_tournament/src/Models/Tournament.php:56-65 | null and `''` pass; anything else passes exactly when it is strictly one of pending, in_progress, completed |
| TournamentModel.ValidationRules | brief_tournament/src/Models/Tournament.php:47-67 | the table covers exactly `name`, `date`, `place`, `winner_team_id` and `status`; only `name` must be sent, the others carry `sometimes`. What it accepts is given by `TournamentModel.ValidIff` |
| TournamentModel.Errors | brief_tournament/src/Models/Tournament.php:47-67 | `Tournament::validate($data)` reports only those five fields, always reports a blank `name` with the `required` error, and no other field the data does not carry; its emptiness is decided by `TournamentModel.ValidIff` |
| TournamentModel.NameFieldVerdict | brief_tournament/src/Models/Tournament.php:50 | `name` errors exactly when it is blank or a string outside 2..100 characters |
| TournamentModel.PlaceFieldVerdict | brief_tournament/src/Models/Tournament.php:52 | `place` errors exactly when it is a non-empty string outside 2..100 characters |
| TournamentModel.DateAndWinnerUnchecked | brief_tournament/src/Models/Tournament.php:51-55 | any date passes; a winner errors only when it is non-blank and not numeric, whether or not such a team exists or is enrolled |
| TournamentModel.StatusFieldVerdict | brief_tournament/src/Models/Tournament.php:56-65 | a blank status passes; a non-blank one passes exactly when it is one of the three statuses |
| TournamentModel.AnyStatusFromAnyState | brief_tournament/src/Models/Tournament.php:56-65 | there is no transition order: any allowed status is valid whatever the record held before |
| TournamentModel.ValidIff | brief_tournament/src/Models/Tournament.php:47-67 | a candidate validates exactly when its name is present and bounded, its place is empty or bounded, its winner is blank or numeric, and its status is blank or allowed |
| TournamentModel.FieldReadsOnlyItself | brief_tournament/src/Models/Tournament.php:47-67 | each field's verdict depends only on that field's key and value |
| TournamentModel.Rounds | brief_tournament/src/Models/Tournament.php:84-87 | `round()` lists exactly the stored rounds whose `id_tournament` is the tournament's id |
| TournamentModel.Teams | brief_tournament/src/Models/Tournament.php:90-95 | `teams()` lists exactly the teams found from an enrollment that joins this tournament to them |
| RoundModel.StatusCheck | brief_tournament/src/Models/Round.php:53-57 | the status passes exactly when it is a string among the tournament statuses; null is rejected |
| RoundModel.ValidationRules | brief_tournament/src/Models/Round.php:41-59 | the table covers exactly `id_tournament`, `name` and `status`, each opening with `required` and none with `sometimes`; what it accepts is given by `RoundModel.ValidIff` |
| RoundModel.Errors | brief_tournament/src/Models/Round.php:41-59 | `Round::validate($data)` reports only those three fields, and each blank one with the `required` error; its emptiness is decided by `RoundModel.ValidIff` |
| RoundModel.TournamentFieldVerdict | brief_tournament/src/Models/Round.php:44-51 | `id_tournament` errors exactly when it is blank, not numeric, or names no tournament |
| RoundModel.NameFieldVerdict | brief_tournament/src/Models/Round.php:52 | `name` errors exactly when it is blank or a string outside 2..100 characters |
| RoundModel.StatusFieldVerdict | brief_tournament/src/Models/Round.php:53-57 | a round status is valid exactly when it is a valid non-blank tournament status |
| RoundModel.ValidIff | brief_tournament/src/Models/Round.php:41-59 | a round validates exactly when its tournament id is present, numeric and found, its name is present and bounded, and its status is one of the tournament statuses |
| RoundModel.RoundTournament | brief_tournament/src/Models/Round.php:74-77 | `tournament()` follows `id_tournament` to an existing tournament |
| RoundModel.RoundTournamentInverse | brief_tournament/src/Models/Round.php:74-77 | a stored round is among a tournament's rounds exactly when its `tournament()` is that tournament |
| TeamModel.ImgCheck | brief_tournament/src/Models/Team.php:42-48 | a non-blank logo passes exactly when the URL test accepts it or it starts with `/` followed by something other than `/` |
| TeamModel.ValidationRules | brief_tournament/src/Models/Team.php:40-50 | the table covers exactly `name`, which must be sent, and `img`, which carries `sometimes`; what it accepts is given by `TeamModel.ValidIff` |
| TeamModel.Errors | brief_tournament/src/Models/Team.php:40-50 | `Team::validate($data)` reports only `name` and `img`, always reports a blank name with the `required` error, and reports `img` only when the data carries it; its emptiness is decided by `TeamModel.ValidIff` |
| TeamModel.NameFieldVerdict | brief_tournament/src/Models/Team.php:41 | `name` errors exactly when it is blank or a string outside 2..100 characters |
| TeamModel.ImgFieldVerdict | brief_tournament/src/Models/Team.php:42-48 | an empty logo passes; a non-empty one passes exactly when it is a URL or an absolute path |
| TeamModel.ImgVerdict | brief_tournament/src/Models/Team.php:42-48 | on any value, `img` errors exactly when it is not blank and its text is neither a URL nor an absolute path |
| TeamModel.ValidIff | brief_tournament/src/Models/Team.php:39-50 | a team validates exactly when its name is present and bounded and its logo is blank, a URL or an absolute path |
| TeamModel.AbsoluteLogoAccepted | brief_tournament/src/Models/Team.php:44 | "/logo.png" passes whatever the URL test says |
| TeamModel.RelativeLogoNeedsUrl | brief_tournament/src/Models/Team.php:44 | "logo.png" and "//x" pass exactly when the URL test accepts them |
| TeamModel.Tournaments | brief_tournament/src/Models/Team.php:55-58 | `tournaments()` lists exactly the tournaments found from an enrollment that joins them to this team |
| TeamModel.EnrollmentSymmetric | brief_tournament/src/Models/Team.php:55-58 | a team is among a tournament's teams exactly when that tournament is among the team's tournaments |
| TournamentRoutes.Merge | brief_tournament/routes/tournaments.php:58 | `array_merge` on string keys: the body's values win, and stored keys the body omits keep their values |
| TournamentRoutes.Update | brief_tournament/routes/tournaments.php:47-70 | not found exactly when no tournament has the id; invalid carries the non-empty errors of the merged record; `update` is reached only with the found tournament, the body as sent, and a merge without errors |
| TournamentRoutes.UpdatedIff | brief_tournament/routes/tournaments.php:58-64 | for an existing tournament, `update` is reached exactly when the stored attributes merged with the body are acceptable |
| TournamentRoutes.Delete | brief_tournament/routes/tournaments.php:75-89 | deletes exactly when the tournament exists; afterwards every tournament with that id is gone, every other stored tournament is kept exactly as many times as before, and no other table changes |
| TournamentRoutes.WithoutTournament | brief_tournament/routes/tournaments.php:83 | `delete()` drops every row with the id and keeps each other row exactly as many times as it was stored |
| TournamentRoutes.FullPayloadIgnoresStored | brief_tournament/routes/tournaments.php:58 | a body that sends every validated field gets the same errors merged as alone |
| TournamentRoutes.StatusOnlyCreateRejected | brief_tournament/routes/tournaments.php:30-34 | a body holding only a status fails create's validation for lack of a name |
| TournamentRoutes.StatusOnlyUpdateAccepted | brief_tournament/routes/tournaments.php:52-64 | the same body sent to update a stored named tournament reaches `update` |
| TournamentRoutes.CreateAsWritten | brief_tournament/routes/tournaments.php:25-42 | as written: the error is sent exactly when the body is not acceptable, and control reaches `create` either way |
| TournamentRoutes.Create | brief_tournament/routes/tournaments.php:25-42 | corrected: `create` is reached exactly when the body is acceptable, with the body as sent; otherwise the non-empty errors are returned |
| TournamentRoutes.NamelessBodyReachesCreate | brief_tournament/routes/tournaments.php:31-36 | a body without a name is reported invalid and still reaches `create` as written; the corrected handler stops |
| BracketExamples.NonContestantWinnerExample | brief_tournament/src/Models/Game.php:75-81 | winner 3 of a game between teams 1 and 2 is rejected by both the written and the corrected rule |
| BracketExamples.ContestantWinnerAccepted | brief_tournament/src/Models/Game.php:46-93 | with the corrected rule, the game between teams 1 and 2 won by team 1 is valid as a whole |
| BracketExamples.ContestantWinnerRejectedAsWritten | brief_tournament/src/Models/Game.php:77 | as written, the same game is rejected on its winner |
| BracketExamples.FirstEnrollmentAccepted | brief_tournament/src/Models/TournamentTeam.php:42-72 | team 1 enrolling in tournament 10 at slot 1 is valid |
| BracketExamples.SlotNineRejected | brief_tournament/src/Models/TournamentTeam.php:61-65 | the same pair at slot 9 fails on the position alone, with the range message |
| BracketExamples.DuplicateEnrollmentAccepted | brief_tournament/src/Models/TournamentTeam.php:42-72 | a second enrollment of an already enrolled pair still validates: nothing enforces uniqueness |

## Left out

- The validation trait's code is not part of this model. Its primitive semantics are assumed as stated in `Validation`, and its primitive messages are placeholders.
- `NumberLike` accepts ints and optionally signed digit strings only. PHP's `is_numeric` also accepts decimals, exponents and surrounding whitespace, and floats are not modelled at all.
- Values.CastInt: does not model PHP's leading-numeric cast of strings such as "12abc"; any string that is not an integer string casts to 0.
- Values.Value: an int attribute is not bounded to 64 bits. PHP ints are, and JSON decoding turns larger numbers into floats, which this model does not have.
- Validation.RunChain: stops a field at its first failing rule, whichever rule that is. If the engine keeps running a field's closure after a failing `numeric` and reports that closure's message, then the message `GameModel.RoundFieldVerdict` states for a non-numeric `id_round` (the `numeric` message) may instead be the closure's "Il round specificato non esiste". The other verdict lemmas state a message only for blank or number-like values. Whether a field errors is the same either way, because such a value already fails `numeric`.
- TournamentTeamModel.PositionCheck: does not model PHP's comparison of a non-numeric string with 1 and 8, which it makes as text; such a string passes the closure here, and `numeric` rejects it first anyway.
- `min`/`max` are taken to ignore anything other than a non-empty string; how the trait treats an int there is not visible. They are taken to count characters (code points). A trait that uses `strlen` counts UTF-8 bytes instead, so a name of 100 or fewer characters that contains accented letters could still fail `max:100` in PHP.
- Booleans, arrays and floats as attribute values are not modelled. The loose `in_array` of the round and enrollment status closures is modelled for null, ints and strings only, where it agrees with string membership under PHP 8's comparison rules. The code needs PHP 8: it uses the `?static` return type at brief_tournament/src/Models/TournamentTeam.php:94. Under PHP 7, `0 == "pending"` is true, so the int 0 would pass both status closures.
- GameModel.WinnerCheck: reads the missing keys `team1_id` / `team2_id` as plain null. In PHP 8 each read also raises an E_WARNING "Undefined array key", so every non-blank winner emits two warnings. With `display_errors` on, their text enters the response. Under an error handler that turns warnings into exceptions, the request takes the exception path instead of reporting the winner message. Warnings and error handlers are not part of this model.
- PHP's `filter_var(..., FILTER_VALIDATE_URL)` is a library call. It is the parameter `isUrl`, and nothing is assumed about it.
- Persistence (`BaseModel`: `find`, `create`, `update`, `delete`, hydration, `toArray`) is modelled only as far as the routes need it:
  - a lookup by id;
  - `toArray` as the attribute map;
  - removal of rows by id.

  `update` and `create` are the points the handlers reach, not a changed store. The SQL behind them, the generated ids and any storage-level cascade are not part of this model.
- `findByTournamentAndTeam` is taken to return rows in storage order. SQL gives no ordering without `ORDER BY`.
- `Tournament::find($id)` receives the path segment as a string. The model takes the id as an int.
- The router, request decoding, response envelopes, HTTP status codes and the `try`/`catch` handlers are left out, as is the GET list endpoint.
- TournamentRoutes.Merge: `array_merge` renumbers integer keys; records here have string keys only.
- Concurrency between requests is not modelled.
- Status transitions are not ordered and enrollment pairs are not unique. The source enforces neither, and the model proves that (`AnyStatusFromAnyState`, `DuplicateEnrollmentAccepted`) rather than adding the checks.
- The tournament-completion workflow that calls `findByTournamentAndTeam` is not part of this model.

## Findings

| source | as written | input that shows it | evidently intended | confidence | as-written member | corrected member |
|---|---|---|---|---|---|---|
| brief_tournament/src/Models/Game.php:77 | the winner is compared strictly with `$data['team1_id']` and `$data['team2_id']`, keys no game record has, so both read as null | game `{id_round: 5, id_team1: 1, id_team2: 2, winner_team_id: 1}` with round 5 and teams 1 and 2 stored: rejected with "Il vincitore deve essere una delle due squadre" when warnings do not throw; otherwise the two "Undefined array key" warnings end the request on the exception path | compare with `id_team1` / `id_team2`, the game's own attributes | not executed; high, because no code path sets `team1_id` | GameModel.WinnerAsWrittenRejectsContestants | GameModel.IntendedWinnerFieldVerdict |
| brief_tournament/routes/tournaments.php:31-34 | after sending the validation error, the create handler does not `return`, so `Tournament::create($data)` is still reached | POST body `{status: "completed"}`: validation fails on `name`, then `create` runs | stop after the error, as the update and delete handlers do | not executed; medium, because whether sending the response ends the script is not visible | TournamentRoutes.CreateAsWritten | TournamentRoutes.Create |

The closure's own message, "Il vincitore deve essere una delle due squadre"
(the winner must be one of the two teams, line 78), and the game's attributes
`id_team1` / `id_team2` (lines 29-30) show what the winner rule is for. The
model keeps the code as written in `GameModel.ValidationRules` and proves the
rule that the message describes about `GameModel.IntendedValidationRules`. The
examples in `BracketExamples` exercise both tables
(`ContestantWinnerRejectedAsWritten`, `ContestantWinnerAccepted`).
`GameModel.GoalsOnlyUpdateKeepsWinner` shows the consequence for an update
that changes only the goals.
