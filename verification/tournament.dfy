/**
 The Tournament model: the root of a bracket. Its rule table bounds the name
 and place, accepts any date and any numeric winner, and limits a non-empty
 status to pending, in_progress and completed. Its relations are the rounds
 that point at it and the teams enrolled through `tournament_teams`.
 */
module TournamentModel {
  import opened Values
  import opened Store
  import opened Entities
  import opened Validation

  /** The allowed tournament and round statuses. */
  const Statuses: set<string> := {"pending", "in_progress", "completed"}

  const StatusNotAllowed := "Il campo status deve essere uno dei seguenti valori: pending, in_progress, completed"
  const TournamentMissing := "Il torneo specificato non esiste"

  /** The `id_tournament` closure shared by the round and enrollment tables: a
      non-empty value must name an existing tournament. */
  function TournamentCheck(db: Db, v: Value): (err: Option<string>)
    ensures err.Some? <==> !Blank(v) && !TournamentExists(db, CastInt(v))
    ensures err.Some? ==> err.value == TournamentMissing
  {
    if !Blank(v) && FindTournament(db, CastInt(v)).None? then Some(TournamentMissing) else None
  }

  /** The `status` closure: null and '' pass; anything else must be strictly
      (`in_array(..., true)`) one of the statuses. The closure is given only
      the new value, never the stored one. */
  function StatusCheck(v: Value): (err: Option<string>)
    ensures Blank(v) ==> err.None?
    ensures !Blank(v) ==> (err.None? <==> v.VStr? && v.s in Statuses)
    ensures err.Some? ==> err.value == StatusNotAllowed
  {
    if Blank(v) then None
    else if v.VStr? && v.s in Statuses then None
    else Some(StatusNotAllowed)
  }

  /** The five fields a tournament's rule table validates. */
  const Fields: set<string> := {"name", "date", "place", "winner_team_id", "status"}

  /** `Tournament::validationRules()`. No rule looks up the store. */
  function ValidationRules(): (rules: Rules)
    ensures rules.Keys == Fields
    ensures Mandatory(rules["name"])
    ensures forall f :: f in rules && f != "name" ==> HasSometimes(rules[f])
  {
    var rules := map[
      "name" := [Required, Min(2), Max(100)],
      "date" := [Sometimes],
      "place" := [Sometimes, Min(2), Max(100)],
      "winner_team_id" := [Sometimes, Numeric],
      "status" := [Sometimes, Custom((f: string, v: Value, r: Record) => StatusCheck(v))]
    ];
    assert forall f :: f in rules && f != "name" ==> rules[f][0].Sometimes?;
    rules
  }

  /** `Tournament::validate($data)`: only table fields are reported, a blank
      name always fails `required`, and no other field errors unless it was
      sent. */
  function Errors(rec: Record): (errs: map<string, string>)
    ensures errs.Keys <= Fields
    ensures Blank(Get(rec, "name")) ==> "name" in errs && errs["name"] == RequiredMessage
    ensures forall f :: f in errs ==> f == "name" || f in rec
  {
    RequiredAndSometimes(ValidationRules(), rec);
    Validate(ValidationRules(), rec)
  }

  /** Within the string length bounds of `min:2|max:100`. */
  predicate WithinBounds(s: string)
  {
    2 <= |s| <= 100
  }

  /** `name` is required and, when a string, must be 2 to 100 characters long. */
  lemma NameFieldVerdict(rec: Record)
    ensures var v := Get(rec, "name");
            ("name" in Errors(rec) <==> Blank(v) || (v.VStr? && !WithinBounds(v.s)))
  {
    var chain := ValidationRules()["name"];
    assert !HasSometimes(chain);
    RunChainOfThree("name", Get(rec, "name"), chain, rec);
  }

  /** `place` is optional, with the same bounds as `name` on a non-empty string. */
  lemma PlaceFieldVerdict(rec: Record)
    ensures var v := Get(rec, "place");
            ("place" in Errors(rec) <==> v.VStr? && v.s != "" && !WithinBounds(v.s))
  {
    var chain := ValidationRules()["place"];
    assert HasSometimes(chain) by { assert chain[0].Sometimes?; }
    RunChainOfThree("place", Get(rec, "place"), chain, rec);
  }

  /** `date` has no content rule and `winner_team_id` only `numeric`: any date
      passes, and so does any int winner, whether or not a team or an
      enrollment with that id exists (the table takes no store at all). */
  lemma DateAndWinnerUnchecked(rec: Record)
    ensures "date" !in Errors(rec)
    ensures ("winner_team_id" in Errors(rec) <==> !Blank(Get(rec, "winner_team_id")) && !NumberLike(Get(rec, "winner_team_id")))
  {
    var rules := ValidationRules();
    assert HasSometimes(rules["date"]) by { assert rules["date"][0].Sometimes?; }
    assert HasSometimes(rules["winner_team_id"]) by { assert rules["winner_team_id"][0].Sometimes?; }
  }

  /** The status rule: a blank status passes; a non-empty one passes exactly
      when it is one of the statuses. */
  lemma StatusFieldVerdict(rec: Record)
    ensures var v := Get(rec, "status");
            && (Blank(v) ==> "status" !in Errors(rec))
            && (!Blank(v) ==> ("status" !in Errors(rec) <==> v.VStr? && v.s in Statuses))
  {
    var chain := ValidationRules()["status"];
    assert HasSometimes(chain) by { assert chain[0].Sometimes?; }
    assert chain[1..] == [chain[1]];
  }

  /** No transition order: whatever the record says now, setting its status to
      any allowed value leaves the status field valid, so a completed
      tournament may go back to pending. */
  lemma AnyStatusFromAnyState(rec: Record, s: string)
    requires s in Statuses
    ensures "status" !in Errors(rec["status" := VStr(s)])
  {
    StatusFieldVerdict(rec["status" := VStr(s)]);
  }

  /** What the table demands of a candidate: a present name within bounds, an
      empty or bounded place, a blank or numeric winner, and a blank or
      allowed status. */
  predicate Acceptable(rec: Record)
  {
    var name := Get(rec, "name");
    var place := Get(rec, "place");
    var winner := Get(rec, "winner_team_id");
    var status := Get(rec, "status");
    && !Blank(name) && (name.VStr? ==> WithinBounds(name.s))
    && (place.VStr? && place.s != "" ==> WithinBounds(place.s))
    && (Blank(winner) || NumberLike(winner))
    && (Blank(status) || (status.VStr? && status.s in Statuses))
  }

  /** The whole table: a candidate is valid exactly when it is acceptable. */
  lemma ValidIff(rec: Record)
    ensures Errors(rec) == map[] <==> Acceptable(rec)
  {
    NameFieldVerdict(rec);
    PlaceFieldVerdict(rec);
    DateAndWinnerUnchecked(rec);
    StatusFieldVerdict(rec);
    if Errors(rec) != map[] {
      var f :| f in Errors(rec);
      assert f in ValidationRules();
    }
  }

  /** Each field's verdict reads only that field: no rule of the table looks
      at another attribute, so two records that agree on a field get the same
      verdict for it. */
  lemma {:induction false} FieldReadsOnlyItself(f: string, a: Record, b: Record)
    requires f in ValidationRules()
    requires (f in a) == (f in b) && Get(a, f) == Get(b, f)
    ensures FieldError(f, ValidationRules()[f], a) == FieldError(f, ValidationRules()[f], b)
  {
    var chain := ValidationRules()[f];
    if f == "status" {
      assert chain[1].check(f, Get(a, f), a) == StatusCheck(Get(a, f));
      assert chain[1].check(f, Get(a, f), b) == StatusCheck(Get(a, f));
    }
    FieldErrorLocal(f, chain, a, b);
  }

  /** `round()`: has-many on `rounds.id_tournament`, in storage order. */
  function Rounds(db: Db, id: int): (rs: seq<Round>)
    ensures forall r :: r in rs <==> r in db.rounds && r.idTournament == Some(id)
  {
    RoundsOf(db.rounds, id)
  }

  function RoundsOf(rows: seq<Round>, id: int): (rs: seq<Round>)
    ensures forall r :: r in rs <==> r in rows && r.idTournament == Some(id)
  {
    if |rows| == 0 then []
    else
      var rest := RoundsOf(rows[1..], id);
      if rows[0].idTournament == Some(id) then [rows[0]] + rest else rest
  }

  /** `teams()`: many-to-many through `tournament_teams`, joining this key
      `id_tournament` to the tournament's id and following the other key
      `id_team` to the team; enrollments whose team is missing yield nothing. */
  function Teams(db: Db, id: int): (ts: seq<Team>)
    ensures forall t :: t in ts <==>
              exists k :: 0 <= k < |db.enrollments| && db.enrollments[k].idTournament == Some(id)
                          && db.enrollments[k].idTeam.Some?
                          && FindTeam(db, db.enrollments[k].idTeam.value) == Some(t)
  {
    TeamsVia(db.teams, db.enrollments, id)
  }

  function TeamsVia(teams: seq<Team>, pivot: seq<TournamentTeam>, id: int): (ts: seq<Team>)
    ensures forall t :: t in ts <==>
              exists k :: 0 <= k < |pivot| && pivot[k].idTournament == Some(id) && pivot[k].idTeam.Some?
                          && Find(teams, TeamKey, pivot[k].idTeam.value) == Some(t)
  {
    if |pivot| == 0 then []
    else
      var rest := TeamsVia(teams, pivot[1..], id);
      assert forall k :: 1 <= k < |pivot| ==> pivot[k] == pivot[1..][k - 1];
      var e := pivot[0];
      if e.idTournament == Some(id) && e.idTeam.Some? && Find(teams, TeamKey, e.idTeam.value).Some?
      then [Find(teams, TeamKey, e.idTeam.value).value] + rest
      else rest
  }
}
