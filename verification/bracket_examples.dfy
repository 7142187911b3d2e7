/**
 Examples on a small concrete store with two teams, one tournament and one
 round: a game whose winner must be a contestant, and enrollments whose slot
 must lie in 1..8.
 */
module BracketExamples {
  import opened Values
  import opened Entities
  import GameModel
  import TournamentTeamModel

  /** A store with teams 1 and 2, tournament 10 and its round 5. */
  function ExampleDb(): Db
  {
    Db([Team(1, Some("Alpha"), None), Team(2, Some("Beta"), None)],
       [Tournament(10, Some("Cup"), None, None, None, Some("pending"))],
       [Round(5, Some(10), Some("Finale"), Some("pending"))],
       [], [])
  }

  function ExampleGame(winner: int): Record
  {
    map["id_round" := VInt(5), "id_team1" := VInt(1), "id_team2" := VInt(2), "winner_team_id" := VInt(winner)]
  }

  /** Winner 3 is neither contestant and is rejected by both tables. */
  lemma NonContestantWinnerExample()
    ensures "winner_team_id" in GameModel.Errors(ExampleDb(), ExampleGame(3))
    ensures "winner_team_id" in GameModel.IntendedErrors(ExampleDb(), ExampleGame(3))
  {
    var rec := ExampleGame(3);
    assert Get(rec, "winner_team_id") == VInt(3);
    assert Get(rec, "id_team1") == VInt(1) && Get(rec, "id_team2") == VInt(2);
    assert Get(rec, "team1_id") == VNull && Get(rec, "team2_id") == VNull;
    GameModel.WinnerFieldVerdict(ExampleDb(), rec);
    GameModel.IntendedWinnerFieldVerdict(ExampleDb(), rec);
  }

  /** The facts about the example store and game that the corrected table checks. */
  lemma ExampleFacts()
    ensures RoundExists(ExampleDb(), 5) && TeamExists(ExampleDb(), 1) && TeamExists(ExampleDb(), 2)
    ensures var rec := ExampleGame(1);
            && "team1_id" !in rec && "team2_id" !in rec
            && Get(rec, "id_round") == VInt(5) && Get(rec, "winner_team_id") == VInt(1)
            && Get(rec, "id_team1") == VInt(1) && Get(rec, "id_team2") == VInt(2)
            && Get(rec, "goals_team1") == VNull && Get(rec, "goals_team2") == VNull
            && Get(rec, "next_game_id") == VNull
  {
    var db := ExampleDb();
    assert db.rounds[0].id == 5;
    assert db.teams[0].id == 1 && db.teams[1].id == 2;
  }

  /** Winner 1 is a contestant: the corrected table accepts the whole game. */
  lemma ContestantWinnerAccepted()
    ensures GameModel.IntendedErrors(ExampleDb(), ExampleGame(1)) == map[]
  {
    var db := ExampleDb();
    var rec := ExampleGame(1);
    ExampleFacts();
    assert GameModel.RoundOk(db, Get(rec, "id_round")) by { assert CastInt(VInt(5)) == 5; }
    assert GameModel.TeamOk(db, Get(rec, "id_team1")) && GameModel.TeamOk(db, Get(rec, "id_team2")) by {
      assert CastInt(VInt(1)) == 1 && CastInt(VInt(2)) == 2;
    }
    assert GameModel.WinnerOk(rec, "id_team1", "id_team2");
    assert GameModel.IntendedAcceptable(db, rec);
    GameModel.IntendedValidIff(db, rec);
  }

  /** As written, the same game is rejected because the record has no `team1_id`. */
  lemma ContestantWinnerRejectedAsWritten()
    ensures "winner_team_id" in GameModel.Errors(ExampleDb(), ExampleGame(1))
  {
    ExampleFacts();
    GameModel.WinnerAsWrittenRejectsContestants(ExampleDb(), ExampleGame(1));
  }

  function Enrollment(position: int): Record
  {
    map["id_tournament" := VInt(10), "id_team" := VInt(1), "position" := VInt(position),
        "status" := VStr("partecipating")]
  }

  lemma ExampleEnrollmentFacts()
    ensures TournamentExists(ExampleDb(), 10) && TeamExists(ExampleDb(), 1)
  {
    assert ExampleDb().tournaments[0].id == 10;
    assert ExampleDb().teams[0].id == 1;
  }

  /** Team 1 enrolls in tournament 10 at slot 1: accepted. */
  lemma FirstEnrollmentAccepted()
    ensures TournamentTeamModel.Errors(ExampleDb(), Enrollment(1)) == map[]
  {
    ExampleEnrollmentFacts();
    TournamentTeamModel.ValidIff(ExampleDb(), Enrollment(1));
  }

  /** Slot 9 is out of range. */
  lemma SlotNinePosition()
    ensures var errs := TournamentTeamModel.Errors(ExampleDb(), Enrollment(9));
            "position" in errs && errs["position"] == TournamentTeamModel.PositionOutOfRange
  {
    assert Get(Enrollment(9), "position") == VInt(9);
    TournamentTeamModel.PositionFieldVerdict(ExampleDb(), Enrollment(9));
  }

  /** The keys and the status of the slot-9 enrollment are fine. */
  lemma SlotNineOthersPass()
    ensures var errs := TournamentTeamModel.Errors(ExampleDb(), Enrollment(9));
            "id_tournament" !in errs && "id_team" !in errs && "status" !in errs
  {
    var rec := Enrollment(9);
    assert Get(rec, "id_tournament") == VInt(10) && Get(rec, "id_team") == VInt(1);
    assert Get(rec, "status") == VStr("partecipating");
    ExampleEnrollmentFacts();
    TournamentTeamModel.StatusFieldVerdict(ExampleDb(), rec);
    TournamentTeamModel.ForeignKeyVerdicts(ExampleDb(), rec);
  }

  /** The same pair again at slot 9: the only error is the slot range. */
  lemma SlotNineRejected()
    ensures var errs := TournamentTeamModel.Errors(ExampleDb(), Enrollment(9));
            errs.Keys == {"position"} && errs["position"] == TournamentTeamModel.PositionOutOfRange
  {
    var errs := TournamentTeamModel.Errors(ExampleDb(), Enrollment(9));
    SlotNinePosition();
    SlotNineOthersPass();
    assert errs.Keys <= TournamentTeamModel.ValidationRules(ExampleDb()).Keys;
  }

  /** Once team 1 is enrolled in tournament 10, a second enrollment of the same
      pair at another slot still passes validation: no rule looks for an
      existing enrollment. */
  lemma DuplicateEnrollmentAccepted()
    ensures var db := ExampleDb().(enrollments := [TournamentTeam(20, Some(10), Some(1), Some(1), Some("partecipating"))]);
            TournamentTeamModel.Errors(db, Enrollment(2)) == map[]
  {
    var db := ExampleDb().(enrollments := [TournamentTeam(20, Some(10), Some(1), Some(1), Some("partecipating"))]);
    var rec := Enrollment(2);
    assert db.tournaments[0].id == 10 && db.teams[0].id == 1;
    assert Get(rec, "id_tournament") == VInt(10) && Get(rec, "id_team") == VInt(1);
    assert Get(rec, "position") == VInt(2) && Get(rec, "status") == VStr("partecipating");
    assert CastInt(VInt(10)) == 10 && CastInt(VInt(1)) == 1 && CastInt(VInt(2)) == 2;
    assert TournamentTeamModel.Acceptable(db, rec);
    TournamentTeamModel.ValidIff(db, rec);
  }
}
