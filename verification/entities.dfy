/**
 The five entities of the bracket and the store that holds them. Each entity
 mirrors the public, nullable typed properties of its model class; the id is
 the one the store assigned. Every table is a sequence in storage order, and
 the enrollment table `tournament_teams` is the pivot between tournaments and
 teams.
 */
module Entities {
  import opened Values
  import opened Store

  datatype Team = Team(id: int, name: Option<string>, img: Option<string>)

  datatype Tournament = Tournament(
    id: int,
    name: Option<string>,
    date: Option<string>,
    place: Option<string>,
    winnerTeamId: Option<int>,
    status: Option<string>)

  datatype Round = Round(id: int, idTournament: Option<int>, name: Option<string>, status: Option<string>)

  datatype Game = Game(
    id: int,
    idRound: Option<int>,
    idTeam1: Option<int>,
    idTeam2: Option<int>,
    goalsTeam1: Option<int>,
    goalsTeam2: Option<int>,
    winnerTeamId: Option<int>,
    nextGameId: Option<int>)

  /** One row of the `tournament_teams` pivot: a team's enrollment in a tournament. */
  datatype TournamentTeam = TournamentTeam(
    id: int,
    idTournament: Option<int>,
    idTeam: Option<int>,
    position: Option<int>,
    status: Option<string>)

  datatype Db = Db(
    teams: seq<Team>,
    tournaments: seq<Tournament>,
    rounds: seq<Round>,
    games: seq<Game>,
    enrollments: seq<TournamentTeam>)

  function TeamKey(t: Team): int { t.id }
  function TournamentKey(t: Tournament): int { t.id }
  function RoundKey(r: Round): int { r.id }
  function GameKey(g: Game): int { g.id }
  function EnrollmentKey(e: TournamentTeam): int { e.id }

  predicate TeamExists(db: Db, id: int) { HasId(db.teams, TeamKey, id) }
  predicate TournamentExists(db: Db, id: int) { HasId(db.tournaments, TournamentKey, id) }
  predicate RoundExists(db: Db, id: int) { HasId(db.rounds, RoundKey, id) }
  predicate GameExists(db: Db, id: int) { HasId(db.games, GameKey, id) }

  function FindTeam(db: Db, id: int): Option<Team> { Find(db.teams, TeamKey, id) }
  function FindTournament(db: Db, id: int): Option<Tournament> { Find(db.tournaments, TournamentKey, id) }
  function FindRound(db: Db, id: int): Option<Round> { Find(db.rounds, RoundKey, id) }
  function FindGame(db: Db, id: int): Option<Game> { Find(db.games, GameKey, id) }

  /** A nullable int property as it appears in `toArray()`. */
  function IntAttr(o: Option<int>): Value
  {
    match o
    case None => VNull
    case Some(i) => VInt(i)
  }

  /** A nullable string property as it appears in `toArray()`. */
  function StrAttr(o: Option<string>): Value
  {
    match o
    case None => VNull
    case Some(s) => VStr(s)
  }

  /** `$game->toArray()`: every public attribute, null ones included. */
  function GameArray(g: Game): Record
  {
    map[
      "id" := VInt(g.id),
      "id_round" := IntAttr(g.idRound),
      "id_team1" := IntAttr(g.idTeam1),
      "id_team2" := IntAttr(g.idTeam2),
      "goals_team1" := IntAttr(g.goalsTeam1),
      "goals_team2" := IntAttr(g.goalsTeam2),
      "winner_team_id" := IntAttr(g.winnerTeamId),
      "next_game_id" := IntAttr(g.nextGameId)
    ]
  }

  /** `$tournament->toArray()`: every public attribute, null ones included. */
  function TournamentArray(t: Tournament): Record
  {
    map[
      "id" := VInt(t.id),
      "name" := StrAttr(t.name),
      "date" := StrAttr(t.date),
      "place" := StrAttr(t.place),
      "winner_team_id" := IntAttr(t.winnerTeamId),
      "status" := StrAttr(t.status)
    ]
  }
}
