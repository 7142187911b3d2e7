/**
 The Game model: one match of the bracket. Its rule table checks that the
 round, both teams and the follow-up game exist, that the goals are numeric,
 and that the winner is one of the two contestants.

 The winner closure is modelled as written: it reads the keys `team1_id` and
 `team2_id`, while the model's attributes are `id_team1` and `id_team2`, and it
 compares with PHP's strict `!==`. A record built from the model's own
 attributes therefore rejects every non-empty winner; `IntendedWinnerCheck`
 and `IntendedValidationRules` give the comparison against `id_team1` / `id_team2`.
 */
module GameModel {
  import opened Values
  import opened Store
  import opened Entities
  import opened Validation

  const RoundMissing := "Il round specificato non esiste"
  const Team1Missing := "La squadra 1 specificata non esiste"
  const Team2Missing := "La squadra 2 specificata non esiste"
  const WinnerNotContestant := "Il vincitore deve essere una delle due squadre"
  const NextGameMissing := "Devi selezionare una partita esistente"

  /** The `id_round` closure: a non-empty value must name an existing round. */
  function RoundCheck(db: Db, v: Value): (err: Option<string>)
    ensures err.Some? <==> !Blank(v) && !RoundExists(db, CastInt(v))
    ensures err.Some? ==> err.value == RoundMissing
  {
    if !Blank(v) && FindRound(db, CastInt(v)).None? then Some(RoundMissing) else None
  }

  /** The `id_team1` / `id_team2` closures, which differ only in their message. */
  function TeamCheck(db: Db, v: Value, missing: string): (err: Option<string>)
    ensures err.Some? <==> !Blank(v) && !TeamExists(db, CastInt(v))
    ensures err.Some? ==> err.value == missing
  {
    if !Blank(v) && FindTeam(db, CastInt(v)).None? then Some(missing) else None
  }

  /** The `next_game_id` closure: a non-empty value must name an existing game. */
  function NextGameCheck(db: Db, v: Value): (err: Option<string>)
    ensures err.Some? <==> !Blank(v) && !GameExists(db, CastInt(v))
    ensures err.Some? ==> err.value == NextGameMissing
  {
    if !Blank(v) && FindGame(db, CastInt(v)).None? then Some(NextGameMissing) else None
  }

  /** The `winner_team_id` closure as written: it compares the winner strictly
      with `$data['team1_id']` and `$data['team2_id']`, keys the model never
      sets, and a missing key reads as null. */
  function WinnerCheck(v: Value, rec: Record): (err: Option<string>)
    ensures Blank(v) ==> err.None?
    ensures !Blank(v) ==> (err.None? <==> v == Get(rec, "team1_id") || v == Get(rec, "team2_id"))
    ensures err.Some? ==> err.value == WinnerNotContestant
  {
    if !Blank(v) && v != Get(rec, "team1_id") && v != Get(rec, "team2_id") then Some(WinnerNotContestant)
    else None
  }

  /** The winner closure as its own message, "the winner must be one of the
      two teams", and the game's attributes `id_team1` / `id_team2` indicate:
      the winner must equal the candidate's own `id_team1` or `id_team2`,
      still strictly. */
  function IntendedWinnerCheck(v: Value, rec: Record): (err: Option<string>)
    ensures Blank(v) ==> err.None?
    ensures !Blank(v) ==> (err.None? <==> v == Get(rec, "id_team1") || v == Get(rec, "id_team2"))
  {
    if !Blank(v) && v != Get(rec, "id_team1") && v != Get(rec, "id_team2") then Some(WinnerNotContestant)
    else None
  }

  /** The seven fields a game's rule table validates. */
  const Fields: set<string> :=
    {"id_round", "id_team1", "id_team2", "goals_team1", "goals_team2", "winner_team_id", "next_game_id"}

  function RulesWith(db: Db, winner: Check): Rules
  {
    map[
      "id_round" := [Required, Numeric, Custom((f: string, v: Value, r: Record) => RoundCheck(db, v))],
      "id_team1" := [Sometimes, Numeric, Custom((f: string, v: Value, r: Record) => TeamCheck(db, v, Team1Missing))],
      "id_team2" := [Sometimes, Numeric, Custom((f: string, v: Value, r: Record) => TeamCheck(db, v, Team2Missing))],
      "goals_team1" := [Sometimes, Numeric],
      "goals_team2" := [Sometimes, Numeric],
      "winner_team_id" := [Sometimes, Numeric, Custom(winner)],
      "next_game_id" := [Numeric, Sometimes, Custom((f: string, v: Value, r: Record) => NextGameCheck(db, v))]
    ]
  }

  /** Whatever the winner closure, only `id_round` must be sent. */
  lemma OnlyRoundMandatory(rules: Rules, db: Db, winner: Check)
    requires rules == RulesWith(db, winner)
    ensures rules.Keys == Fields
    ensures Mandatory(rules["id_round"])
    ensures forall f :: f in rules && f != "id_round" ==> HasSometimes(rules[f])
  {
    forall f | f in rules && f != "id_round"
      ensures HasSometimes(rules[f])
    {
      if f == "next_game_id" {
        assert rules[f][1].Sometimes?;
      } else {
        assert rules[f][0].Sometimes?;
      }
    }
  }

  function WinnerRule(): Check
  {
    (f: string, v: Value, r: Record) => WinnerCheck(v, r)
  }

  function IntendedWinnerRule(): Check
  {
    (f: string, v: Value, r: Record) => IntendedWinnerCheck(v, r)
  }

  /** `Game::validationRules()` as written. */
  function ValidationRules(db: Db): (rules: Rules)
    ensures rules.Keys == Fields
    ensures Mandatory(rules["id_round"])
    ensures forall f :: f in rules && f != "id_round" ==> HasSometimes(rules[f])
  {
    var rules := RulesWith(db, WinnerRule());
    OnlyRoundMandatory(rules, db, WinnerRule());
    rules
  }

  /** The same table with the winner compared against `id_team1` / `id_team2`. */
  function IntendedValidationRules(db: Db): (rules: Rules)
    ensures rules.Keys == Fields
    ensures Mandatory(rules["id_round"])
    ensures forall f :: f in rules && f != "id_round" ==> HasSometimes(rules[f])
  {
    var rules := RulesWith(db, IntendedWinnerRule());
    OnlyRoundMandatory(rules, db, IntendedWinnerRule());
    rules
  }

  /** `Game::validate($data)`: only table fields are reported, a blank round
      always fails `required`, and no other field errors unless it was sent. */
  function Errors(db: Db, rec: Record): (errs: map<string, string>)
    ensures errs.Keys <= Fields
    ensures Blank(Get(rec, "id_round")) ==> "id_round" in errs && errs["id_round"] == RequiredMessage
    ensures forall f :: f in errs ==> f == "id_round" || f in rec
  {
    RequiredAndSometimes(ValidationRules(db), rec);
    Validate(ValidationRules(db), rec)
  }

  /** `validate($data)` with the corrected table. */
  function IntendedErrors(db: Db, rec: Record): (errs: map<string, string>)
    ensures errs.Keys <= Fields
    ensures Blank(Get(rec, "id_round")) ==> "id_round" in errs && errs["id_round"] == RequiredMessage
    ensures forall f :: f in errs ==> f == "id_round" || f in rec
  {
    RequiredAndSometimes(IntendedValidationRules(db), rec);
    Validate(IntendedValidationRules(db), rec)
  }

  /** Relations: each follows exactly one foreign key of the game. */
  function Team1(db: Db, g: Game): (t: Option<Team>)
    ensures t.Some? <==> g.idTeam1.Some? && TeamExists(db, g.idTeam1.value)
    ensures t.Some? ==> t.value in db.teams && Some(t.value.id) == g.idTeam1
  {
    BelongsTo(db.teams, TeamKey, g.idTeam1)
  }

  function Team2(db: Db, g: Game): (t: Option<Team>)
    ensures t.Some? <==> g.idTeam2.Some? && TeamExists(db, g.idTeam2.value)
    ensures t.Some? ==> t.value in db.teams && Some(t.value.id) == g.idTeam2
  {
    BelongsTo(db.teams, TeamKey, g.idTeam2)
  }

  function GameRound(db: Db, g: Game): (r: Option<Round>)
    ensures r.Some? <==> g.idRound.Some? && RoundExists(db, g.idRound.value)
    ensures r.Some? ==> r.value in db.rounds && Some(r.value.id) == g.idRound
  {
    BelongsTo(db.rounds, RoundKey, g.idRound)
  }

  function WinnerTeam(db: Db, g: Game): (t: Option<Team>)
    ensures t.Some? <==> g.winnerTeamId.Some? && TeamExists(db, g.winnerTeamId.value)
    ensures t.Some? ==> t.value in db.teams && Some(t.value.id) == g.winnerTeamId
  {
    BelongsTo(db.teams, TeamKey, g.winnerTeamId)
  }

  /** `id_round` is required and numeric, and a value that passes both must
      name an existing round; an existing round yields no error. */
  lemma RoundFieldVerdict(db: Db, rec: Record)
    ensures var v := Get(rec, "id_round");
            var errs := Errors(db, rec);
            && ("id_round" in errs <==> Blank(v) || !NumberLike(v) || !RoundExists(db, CastInt(v)))
            && ("id_round" in errs ==>
                  errs["id_round"] == (if Blank(v) then RequiredMessage
                                       else if !NumberLike(v) then NumericMessage
                                       else RoundMissing))
  {
    RequiredNumericField("id_round", ValidationRules(db)["id_round"], rec);
  }

  /** `id_team1` / `id_team2`: an absent, null or empty value never errors; a
      non-empty value errors exactly when it is not numeric or no team carries
      that id. */
  lemma TeamFieldVerdict(db: Db, rec: Record, field: string)
    requires field == "id_team1" || field == "id_team2"
    ensures var v := Get(rec, field);
            var errs := Errors(db, rec);
            && (Blank(v) ==> field !in errs)
            && (field in errs <==> !Blank(v) && (!NumberLike(v) || !TeamExists(db, CastInt(v))))
            && (field in errs && NumberLike(v) ==>
                  errs[field] == (if field == "id_team1" then Team1Missing else Team2Missing))
  {
    OptionalNumericField(field, ValidationRules(db)[field], rec);
  }

  /** `next_game_id`: a non-empty value errors exactly when it is not numeric
      or no game carries that id. */
  lemma NextGameFieldVerdict(db: Db, rec: Record)
    ensures var v := Get(rec, "next_game_id");
            var errs := Errors(db, rec);
            && ("next_game_id" in errs <==> !Blank(v) && (!NumberLike(v) || !GameExists(db, CastInt(v))))
            && ("next_game_id" in errs && NumberLike(v) ==> errs["next_game_id"] == NextGameMissing)
  {
    var chain := ValidationRules(db)["next_game_id"];
    var v := Get(rec, "next_game_id");
    assert HasSometimes(chain) by { assert chain[1].Sometimes?; }
    RunChainOfThree("next_game_id", v, chain, rec);
  }

  /** The winner as written: a blank winner never errors; a non-empty winner
      errors exactly when it is not numeric or is strictly equal to neither the
      value under `team1_id` nor the one under `team2_id`. */
  lemma WinnerFieldVerdict(db: Db, rec: Record)
    ensures var v := Get(rec, "winner_team_id");
            var errs := Errors(db, rec);
            && (Blank(v) ==> "winner_team_id" !in errs)
            && ("winner_team_id" in errs <==>
                  !Blank(v) && (!NumberLike(v) || (v != Get(rec, "team1_id") && v != Get(rec, "team2_id"))))
  {
    OptionalNumericField("winner_team_id", ValidationRules(db)["winner_team_id"], rec);
  }

  /** Because the closure reads `team1_id` / `team2_id`, a record keyed by the
      model's own `id_team1` / `id_team2` rejects every non-empty winner, even
      one equal to a contestant. */
  lemma WinnerAsWrittenRejectsContestants(db: Db, rec: Record)
    requires "team1_id" !in rec && "team2_id" !in rec
    requires !Blank(Get(rec, "winner_team_id"))
    ensures "winner_team_id" in Errors(db, rec)
  {
    WinnerFieldVerdict(db, rec);
  }

  /** The corrected winner rule: a non-empty winner errors exactly when it is
      not numeric or is strictly equal to neither `id_team1` nor `id_team2`. */
  lemma IntendedWinnerFieldVerdict(db: Db, rec: Record)
    ensures var v := Get(rec, "winner_team_id");
            var errs := IntendedErrors(db, rec);
            && (Blank(v) ==> "winner_team_id" !in errs)
            && ("winner_team_id" in errs <==>
                  !Blank(v) && (!NumberLike(v) || (v != Get(rec, "id_team1") && v != Get(rec, "id_team2"))))
  {
    OptionalNumericField("winner_team_id", IntendedValidationRules(db)["winner_team_id"], rec);
  }

  /** Goals carry only `sometimes` and `numeric`: their verdict depends only on
      their own value, and changing them never changes the winner's verdict, so
      no rule ties the score to the winner. */
  lemma GoalsUnrelatedToWinner(db: Db, rec: Record, g1: Value, g2: Value)
    ensures var errs := Errors(db, rec);
            var rec' := rec["goals_team1" := g1]["goals_team2" := g2];
            && ("goals_team1" in errs <==> !Blank(Get(rec, "goals_team1")) && !NumberLike(Get(rec, "goals_team1")))
            && ("goals_team2" in errs <==> !Blank(Get(rec, "goals_team2")) && !NumberLike(Get(rec, "goals_team2")))
            && ("winner_team_id" in errs <==> "winner_team_id" in Errors(db, rec'))
  {
    var rec' := rec["goals_team1" := g1]["goals_team2" := g2];
    var rules: Rules := ValidationRules(db);
    assert HasSometimes(rules["goals_team1"]) by { assert rules["goals_team1"][0].Sometimes?; }
    assert HasSometimes(rules["goals_team2"]) by { assert rules["goals_team2"][0].Sometimes?; }
    WinnerFieldVerdict(db, rec);
    WinnerFieldVerdict(db, rec');
    assert Get(rec', "winner_team_id") == Get(rec, "winner_team_id");
    assert Get(rec', "team1_id") == Get(rec, "team1_id");
    assert Get(rec', "team2_id") == Get(rec, "team2_id");
  }

  /** A round id the table accepts: present, numeric and found. */
  predicate RoundOk(db: Db, v: Value)
  {
    !Blank(v) && NumberLike(v) && RoundExists(db, CastInt(v))
  }

  /** A team id the table accepts: blank, or numeric and found. */
  predicate TeamOk(db: Db, v: Value)
  {
    Blank(v) || (NumberLike(v) && TeamExists(db, CastInt(v)))
  }

  /** A follow-up game id the table accepts: blank, or numeric and found. */
  predicate NextGameOk(db: Db, v: Value)
  {
    Blank(v) || (NumberLike(v) && GameExists(db, CastInt(v)))
  }

  /** A winner the table accepts when it compares with the values under `k1`
      and `k2`: blank, or numeric and strictly equal to one of them. */
  predicate WinnerOk(rec: Record, k1: string, k2: string)
  {
    var v := Get(rec, "winner_team_id");
    Blank(v) || (NumberLike(v) && (v == Get(rec, k1) || v == Get(rec, k2)))
  }

  /** What a game table demands, with the winner compared against the values
      under `k1` and `k2`. */
  predicate AcceptableWith(db: Db, rec: Record, k1: string, k2: string)
  {
    && RoundOk(db, Get(rec, "id_round"))
    && TeamOk(db, Get(rec, "id_team1"))
    && TeamOk(db, Get(rec, "id_team2"))
    && (Blank(Get(rec, "goals_team1")) || NumberLike(Get(rec, "goals_team1")))
    && (Blank(Get(rec, "goals_team2")) || NumberLike(Get(rec, "goals_team2")))
    && WinnerOk(rec, k1, k2)
    && NextGameOk(db, Get(rec, "next_game_id"))
  }

  /** The table as written compares the winner with `team1_id` / `team2_id`. */
  predicate Acceptable(db: Db, rec: Record)
  {
    AcceptableWith(db, rec, "team1_id", "team2_id")
  }

  /** The corrected table compares it with `id_team1` / `id_team2`. */
  predicate IntendedAcceptable(db: Db, rec: Record)
  {
    AcceptableWith(db, rec, "id_team1", "id_team2")
  }

  /** In either table, `id_round` passes exactly when it is present, numeric
      and found. */
  lemma RoundFieldShared(db: Db, winner: Check, rec: Record)
    ensures "id_round" !in Validate(RulesWith(db, winner), rec) <==> RoundOk(db, Get(rec, "id_round"))
  {
    var rules := RulesWith(db, winner);
    RequiredNumericField("id_round", rules["id_round"], rec);
  }

  /** In either table, a team id passes exactly when it is blank, or numeric
      and found. */
  lemma TeamFieldShared(db: Db, winner: Check, rec: Record, field: string)
    requires field == "id_team1" || field == "id_team2"
    ensures field !in Validate(RulesWith(db, winner), rec) <==> TeamOk(db, Get(rec, field))
  {
    var rules := RulesWith(db, winner);
    OptionalNumericField(field, rules[field], rec);
  }

  /** In either table, a goals field passes exactly when it is blank or numeric. */
  lemma GoalsFieldShared(db: Db, winner: Check, rec: Record, field: string)
    requires field == "goals_team1" || field == "goals_team2"
    ensures field !in Validate(RulesWith(db, winner), rec) <==> Blank(Get(rec, field)) || NumberLike(Get(rec, field))
  {
    var rules := RulesWith(db, winner);
    assert HasSometimes(rules[field]) by { assert rules[field][0].Sometimes?; }
    assert rules[field][1..] == [Numeric];
  }

  /** In either table, `next_game_id` passes exactly when it is blank, or
      numeric and found. */
  lemma NextGameFieldShared(db: Db, winner: Check, rec: Record)
    ensures "next_game_id" !in Validate(RulesWith(db, winner), rec) <==> NextGameOk(db, Get(rec, "next_game_id"))
  {
    var rules := RulesWith(db, winner);
    assert HasSometimes(rules["next_game_id"]) by { assert rules["next_game_id"][1].Sometimes?; }
    RunChainOfThree("next_game_id", Get(rec, "next_game_id"), rules["next_game_id"], rec);
  }

  /** The six fields both tables share get the same verdict, whatever the
      winner closure. */
  lemma CommonFieldVerdicts(db: Db, winner: Check, rec: Record)
    ensures var errs := Validate(RulesWith(db, winner), rec);
            && ("id_round" !in errs <==> RoundOk(db, Get(rec, "id_round")))
            && ("id_team1" !in errs <==> TeamOk(db, Get(rec, "id_team1")))
            && ("id_team2" !in errs <==> TeamOk(db, Get(rec, "id_team2")))
            && ("goals_team1" !in errs <==> Blank(Get(rec, "goals_team1")) || NumberLike(Get(rec, "goals_team1")))
            && ("goals_team2" !in errs <==> Blank(Get(rec, "goals_team2")) || NumberLike(Get(rec, "goals_team2")))
            && ("next_game_id" !in errs <==> NextGameOk(db, Get(rec, "next_game_id")))
  {
    RoundFieldShared(db, winner, rec);
    TeamFieldShared(db, winner, rec, "id_team1");
    TeamFieldShared(db, winner, rec, "id_team2");
    GoalsFieldShared(db, winner, rec, "goals_team1");
    GoalsFieldShared(db, winner, rec, "goals_team2");
    NextGameFieldShared(db, winner, rec);
  }

  /** The table as written: a game validates exactly when it is acceptable with
      the winner compared against `team1_id` / `team2_id`. */
  lemma ValidIff(db: Db, rec: Record)
    ensures Errors(db, rec) == map[] <==> Acceptable(db, rec)
  {
    CommonFieldVerdicts(db, WinnerRule(), rec);
    WinnerFieldVerdict(db, rec);
    if Errors(db, rec) != map[] {
      var f :| f in Errors(db, rec);
      assert f in ValidationRules(db);
    }
  }

  /** The corrected table: a game validates exactly when it is acceptable with
      the winner compared against its own contestants. */
  lemma IntendedValidIff(db: Db, rec: Record)
    ensures IntendedErrors(db, rec) == map[] <==> IntendedAcceptable(db, rec)
  {
    CommonFieldVerdicts(db, IntendedWinnerRule(), rec);
    IntendedWinnerFieldVerdict(db, rec);
    if IntendedErrors(db, rec) != map[] {
      var f :| f in IntendedErrors(db, rec);
      assert f in IntendedValidationRules(db);
    }
  }

  /** An update that only sends goals, validated on the stored game merged
      with the payload: with the corrected table a winner that is one of the
      stored contestants stays accepted; as written it is rejected, since the
      merged record carries `id_team1` / `id_team2` and not `team1_id`. */
  lemma GoalsOnlyUpdateKeepsWinner(db: Db, g: Game, goals: int)
    requires g.winnerTeamId.Some? && (g.winnerTeamId == g.idTeam1 || g.winnerTeamId == g.idTeam2)
    ensures var rec := GameArray(g)["goals_team1" := VInt(goals)];
            && "winner_team_id" !in IntendedErrors(db, rec)
            && "winner_team_id" in Errors(db, rec)
  {
    var rec := GameArray(g)["goals_team1" := VInt(goals)];
    assert Get(rec, "winner_team_id") == IntAttr(g.winnerTeamId);
    assert Get(rec, "id_team1") == IntAttr(g.idTeam1);
    assert Get(rec, "id_team2") == IntAttr(g.idTeam2);
    assert "team1_id" !in rec && "team2_id" !in rec;
    IntendedWinnerFieldVerdict(db, rec);
    WinnerAsWrittenRejectsContestants(db, rec);
  }
}
