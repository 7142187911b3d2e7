/**
 The Round model: one stage of a tournament (quarter-finals, semi-finals,
 final). Its rule table checks the tournament it belongs to, bounds the name,
 and requires a status from the same set as a tournament's. Its relation is
 the belongs-to inverse of a tournament's rounds.
 */
module RoundModel {
  import opened Values
  import opened Store
  import opened Entities
  import opened Validation
  import TournamentModel

  const StatusNotAllowed := "Lo stato deve essere uno tra: in_caricamento, in_progresso, completato"

  /** The `status` closure: loose `in_array`, which on null, ints and strings
      agrees with membership of the string in the set; null is rejected. */
  function StatusCheck(v: Value): (err: Option<string>)
    ensures err.None? <==> v.VStr? && v.s in TournamentModel.Statuses
    ensures err.Some? ==> err.value == StatusNotAllowed
  {
    if v.VStr? && v.s in {"pending", "in_progress", "completed"} then None else Some(StatusNotAllowed)
  }

  /** `Round::validationRules()`. */
  function ValidationRules(db: Db): (rules: Rules)
    ensures rules.Keys == Fields
    ensures forall f :: f in rules ==> Mandatory(rules[f])
  {
    map[
      "id_tournament" := [Required, Numeric, Custom((f: string, v: Value, r: Record) => TournamentModel.TournamentCheck(db, v))],
      "name" := [Required, Min(2), Max(100)],
      "status" := [Required, Custom((f: string, v: Value, r: Record) => StatusCheck(v))]
    ]
  }

  /** The three fields a round's rule table validates, all of them required. */
  const Fields: set<string> := {"id_tournament", "name", "status"}

  /** `Round::validate($data)`. */
  function Errors(db: Db, rec: Record): (errs: map<string, string>)
    ensures errs.Keys <= Fields
    ensures forall f :: f in Fields && Blank(Get(rec, f)) ==> f in errs && errs[f] == RequiredMessage
  {
    RequiredAndSometimes(ValidationRules(db), rec);
    Validate(ValidationRules(db), rec)
  }

  /** `id_tournament`: required and numeric, and then it must name an existing
      tournament; an existing one yields no error. */
  lemma TournamentFieldVerdict(db: Db, rec: Record)
    ensures var v := Get(rec, "id_tournament");
            var errs := Errors(db, rec);
            && ("id_tournament" in errs <==> Blank(v) || !NumberLike(v) || !TournamentExists(db, CastInt(v)))
            && ("id_tournament" in errs && !Blank(v) && NumberLike(v) ==> errs["id_tournament"] == TournamentModel.TournamentMissing)
  {
    RequiredNumericField("id_tournament", ValidationRules(db)["id_tournament"], rec);
  }

  /** `name` is required and, when a string, 2 to 100 characters long. */
  lemma NameFieldVerdict(db: Db, rec: Record)
    ensures var v := Get(rec, "name");
            ("name" in Errors(db, rec) <==> Blank(v) || (v.VStr? && !TournamentModel.WithinBounds(v.s)))
  {
    var chain := ValidationRules(db)["name"];
    assert !HasSometimes(chain);
    RunChainOfThree("name", Get(rec, "name"), chain, rec);
  }

  /** `status` is required and accepted exactly when it is one of the
      tournament statuses; a round status is valid iff it is a valid non-empty
      tournament status. */
  lemma StatusFieldVerdict(db: Db, rec: Record)
    ensures var v := Get(rec, "status");
            && ("status" !in Errors(db, rec) <==> v.VStr? && v.s in TournamentModel.Statuses)
            && ("status" !in Errors(db, rec) <==> !Blank(v) && TournamentModel.StatusCheck(v).None?)
  {
    var chain := ValidationRules(db)["status"];
    assert !HasSometimes(chain);
    assert chain[1..] == [chain[1]];
  }

  /** What the table demands of a round: a present, numeric tournament id
      that is found, a present name within bounds, and a tournament status. */
  predicate Acceptable(db: Db, rec: Record)
  {
    var tournament := Get(rec, "id_tournament");
    var name := Get(rec, "name");
    var status := Get(rec, "status");
    && !Blank(tournament) && NumberLike(tournament) && TournamentExists(db, CastInt(tournament))
    && !Blank(name) && (name.VStr? ==> TournamentModel.WithinBounds(name.s))
    && status.VStr? && status.s in TournamentModel.Statuses
  }

  /** The whole table: a round is valid exactly when it is acceptable. */
  lemma ValidIff(db: Db, rec: Record)
    ensures Errors(db, rec) == map[] <==> Acceptable(db, rec)
  {
    TournamentFieldVerdict(db, rec);
    NameFieldVerdict(db, rec);
    StatusFieldVerdict(db, rec);
    if Errors(db, rec) != map[] {
      var f :| f in Errors(db, rec);
      assert f in ValidationRules(db);
    }
  }

  /** `tournament()`: belongs-to on `id_tournament`. */
  function RoundTournament(db: Db, r: Round): (t: Option<Tournament>)
    ensures t.Some? <==> r.idTournament.Some? && TournamentExists(db, r.idTournament.value)
    ensures t.Some? ==> t.value in db.tournaments && Some(t.value.id) == r.idTournament
  {
    BelongsTo(db.tournaments, TournamentKey, r.idTournament)
  }

  /** `Round.tournament` inverts `Tournament.round`: a round listed under the
      tournament that `find` returns for its id leads back to that tournament,
      and a stored round leads to a tournament that lists it. */
  lemma RoundTournamentInverse(db: Db, t: Tournament, r: Round)
    requires r in db.rounds
    requires FindTournament(db, t.id) == Some(t)
    ensures r in TournamentModel.Rounds(db, t.id) <==> RoundTournament(db, r) == Some(t)
  {
    if RoundTournament(db, r) == Some(t) {
      assert r.idTournament == Some(t.id);
    }
  }
}
