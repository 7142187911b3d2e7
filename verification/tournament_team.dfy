/**
 The TournamentTeam model: one enrollment of a team in a tournament, with its
 bracket slot (1 to 8, the quarter-final seeds) and its status. Its rule table
 checks both foreign keys, the slot range and the status set; the pair lookup
 `findByTournamentAndTeam` returns the first enrollment of a team in a
 tournament.
 */
module TournamentTeamModel {
  import opened Values
  import opened Store
  import opened Entities
  import opened Validation
  import TournamentModel
  import TeamModel

  const TeamMissing := "La squadra specificata non esiste"
  const PositionOutOfRange := "La posizione deve essere tra 1 e 8 per i quarti di finale"
  const StatusNotAllowed := "Lo status deve essere uno tra: partecipando, eliminato, vincitore"

  /** The allowed enrollment statuses, spelled as in the rule table. */
  const Statuses: set<string> := {"partecipating", "eliminated", "winner"}

  /** The `id_team` closure: a non-empty value must name an existing team. */
  function TeamCheck(db: Db, v: Value): (err: Option<string>)
    ensures err.Some? <==> !Blank(v) && !TeamExists(db, CastInt(v))
    ensures err.Some? ==> err.value == TeamMissing
  {
    if !Blank(v) && FindTeam(db, CastInt(v)).None? then Some(TeamMissing) else None
  }

  /** The `position` closure: `$value !== null && ($value < 1 || $value > 8)`.
      An int or an integer string is compared by its value; null passes. PHP
      compares a non-numeric string with an int as text, which is not part of
      this model: such a string passes here and `numeric` rejects it first. */
  function PositionCheck(v: Value): (err: Option<string>)
    ensures v == VNull ==> err.None?
    ensures NumberLike(v) ==> (err.Some? <==> CastInt(v) < 1 || CastInt(v) > 8)
    ensures err.Some? ==> err.value == PositionOutOfRange
  {
    match v
    case VNull => None
    case VInt(p) => if p < 1 || p > 8 then Some(PositionOutOfRange) else None
    case VStr(s) =>
      if IsIntegerString(s) && (ParseInt(s) < 1 || ParseInt(s) > 8) then Some(PositionOutOfRange) else None
  }

  /** The `status` closure: `!in_array($value, [...])`. The comparison is loose,
      but on null, ints and strings it agrees with membership of the string in
      the set, since no allowed status is numeric or empty. Null is not let
      through. */
  function StatusCheck(v: Value): (err: Option<string>)
    ensures err.None? <==> v.VStr? && v.s in Statuses
    ensures err.Some? ==> err.value == StatusNotAllowed
  {
    if v.VStr? && v.s in Statuses then None else Some(StatusNotAllowed)
  }

  /** `TournamentTeam::validationRules()`. */
  function ValidationRules(db: Db): (rules: Rules)
    ensures rules.Keys == Fields
    ensures forall f :: f in rules ==> Mandatory(rules[f])
  {
    map[
      "id_tournament" := [Required, Numeric, Custom((f: string, v: Value, r: Record) => TournamentModel.TournamentCheck(db, v))],
      "id_team" := [Required, Numeric, Custom((f: string, v: Value, r: Record) => TeamCheck(db, v))],
      "position" := [Required, Numeric, Custom((f: string, v: Value, r: Record) => PositionCheck(v))],
      "status" := [Required, Custom((f: string, v: Value, r: Record) => StatusCheck(v))]
    ]
  }

  /** The four fields an enrollment's rule table validates, all of them required. */
  const Fields: set<string> := {"id_tournament", "id_team", "position", "status"}

  /** `TournamentTeam::validate($data)`: only table fields are reported, and
      every blank field fails `required`. */
  function Errors(db: Db, rec: Record): (errs: map<string, string>)
    ensures errs.Keys <= Fields
    ensures forall f :: f in Fields && Blank(Get(rec, f)) ==> f in errs && errs[f] == RequiredMessage
  {
    RequiredAndSometimes(ValidationRules(db), rec);
    Validate(ValidationRules(db), rec)
  }

  /** The slot rule: a present position errors exactly when it is blank, not
      numeric, or outside 1..8. So 0, 9 and negatives fail; 1 and 8 pass. */
  lemma PositionFieldVerdict(db: Db, rec: Record)
    ensures var v := Get(rec, "position");
            var errs := Errors(db, rec);
            && ("position" in errs <==> Blank(v) || !NumberLike(v) || CastInt(v) < 1 || CastInt(v) > 8)
            && ("position" in errs && !Blank(v) && NumberLike(v) ==> errs["position"] == PositionOutOfRange)
  {
    RequiredNumericField("position", ValidationRules(db)["position"], rec);
  }

  /** The bracket-slot boundaries for an int position. */
  lemma PositionBounds(db: Db, rec: Record, p: int)
    requires Get(rec, "position") == VInt(p)
    ensures "position" in Errors(db, rec) <==> p < 1 || p > 8
    ensures p == 0 || p == 9 || p < 0 ==> "position" in Errors(db, rec)
    ensures p == 1 || p == 8 ==> "position" !in Errors(db, rec)
  {
    PositionFieldVerdict(db, rec);
  }

  /** The status rule: accepted exactly when the value is one of the three
      statuses; null and the empty string are rejected. */
  lemma StatusFieldVerdict(db: Db, rec: Record)
    ensures var v := Get(rec, "status");
            ("status" in Errors(db, rec) <==> !(v.VStr? && v.s in Statuses))
  {
    var chain := ValidationRules(db)["status"];
    assert !HasSometimes(chain);
    assert chain[1..] == [chain[1]];
  }

  /** The foreign keys: each errors exactly when it is blank, not numeric, or
      names no tournament, respectively no team; a blank one reports
      `required`. */
  lemma ForeignKeyVerdicts(db: Db, rec: Record)
    ensures var v := Get(rec, "id_tournament");
            !Blank(v) && NumberLike(v) ==> ("id_tournament" in Errors(db, rec) <==> !TournamentExists(db, CastInt(v)))
    ensures var v := Get(rec, "id_team");
            !Blank(v) && NumberLike(v) ==> ("id_team" in Errors(db, rec) <==> !TeamExists(db, CastInt(v)))
    ensures var v := Get(rec, "id_tournament");
            "id_tournament" in Errors(db, rec) <==> Blank(v) || !NumberLike(v) || !TournamentExists(db, CastInt(v))
    ensures var v := Get(rec, "id_team");
            "id_team" in Errors(db, rec) <==> Blank(v) || !NumberLike(v) || !TeamExists(db, CastInt(v))
    ensures Blank(Get(rec, "id_tournament")) ==> Errors(db, rec)["id_tournament"] == RequiredMessage
    ensures Blank(Get(rec, "id_team")) ==> Errors(db, rec)["id_team"] == RequiredMessage
  {
    RequiredNumericField("id_tournament", ValidationRules(db)["id_tournament"], rec);
    RequiredNumericField("id_team", ValidationRules(db)["id_team"], rec);
  }

  /** What the table demands of an enrollment: both ids present, numeric and
      found, a position in 1..8, and an allowed status. Nothing looks at the
      other enrollments, so a second enrollment of the same pair is not refused. */
  predicate Acceptable(db: Db, rec: Record)
  {
    var tournament := Get(rec, "id_tournament");
    var team := Get(rec, "id_team");
    var position := Get(rec, "position");
    var status := Get(rec, "status");
    && !Blank(tournament) && NumberLike(tournament) && TournamentExists(db, CastInt(tournament))
    && !Blank(team) && NumberLike(team) && TeamExists(db, CastInt(team))
    && !Blank(position) && NumberLike(position) && 1 <= CastInt(position) <= 8
    && status.VStr? && status.s in Statuses
  }

  /** The whole table: an enrollment is valid exactly when it is acceptable. */
  lemma ValidIff(db: Db, rec: Record)
    ensures Errors(db, rec) == map[] <==> Acceptable(db, rec)
  {
    PositionFieldVerdict(db, rec);
    StatusFieldVerdict(db, rec);
    RequiredNumericField("id_tournament", ValidationRules(db)["id_tournament"], rec);
    RequiredNumericField("id_team", ValidationRules(db)["id_team"], rec);
    if Errors(db, rec) != map[] {
      var f :| f in Errors(db, rec);
      assert f in ValidationRules(db);
    }
  }

  /** The enrollment joins exactly this tournament and this team. */
  predicate IsPair(e: TournamentTeam, idTournament: int, idTeam: int)
  {
    e.idTournament == Some(idTournament) && e.idTeam == Some(idTeam)
  }

  /** The rows the query `WHERE id_team = :id_team AND id_tournament =
      :id_tournament` returns, in storage order. */
  function Matching(rows: seq<TournamentTeam>, idTournament: int, idTeam: int): (m: seq<TournamentTeam>)
    ensures forall e :: e in m <==> e in rows && IsPair(e, idTournament, idTeam)
    ensures |m| <= |rows|
  {
    if |rows| == 0 then []
    else
      var rest := Matching(rows[1..], idTournament, idTeam);
      if IsPair(rows[0], idTournament, idTeam) then [rows[0]] + rest else rest
  }

  /** Filtering a concatenation filters each part. */
  lemma {:induction false} MatchingAppend(a: seq<TournamentTeam>, b: seq<TournamentTeam>, idTournament: int, idTeam: int)
    ensures Matching(a + b, idTournament, idTeam) == Matching(a, idTournament, idTeam) + Matching(b, idTournament, idTeam)
  {
    if |a| > 0 {
      assert (a + b)[1..] == a[1..] + b;
      MatchingAppend(a[1..], b, idTournament, idTeam);
    } else {
      assert a + b == b;
    }
  }

  /** The head of the query's rows is the first stored row of the pair. */
  lemma {:induction false} MatchingHead(rows: seq<TournamentTeam>, idTournament: int, idTeam: int)
    requires |Matching(rows, idTournament, idTeam)| > 0
    ensures exists k :: 0 <= k < |rows| && rows[k] == Matching(rows, idTournament, idTeam)[0]
                        && forall j :: 0 <= j < k ==> !IsPair(rows[j], idTournament, idTeam)
  {
    if !IsPair(rows[0], idTournament, idTeam) {
      MatchingHead(rows[1..], idTournament, idTeam);
      var k :| 0 <= k < |rows[1..]| && rows[1..][k] == Matching(rows[1..], idTournament, idTeam)[0]
               && forall j :: 0 <= j < k ==> !IsPair(rows[1..][j], idTournament, idTeam);
      assert rows[k + 1] == Matching(rows, idTournament, idTeam)[0];
      assert forall j :: 1 <= j < k + 1 ==> rows[j] == rows[1..][j - 1];
    }
  }

  /** `!empty($result) ? new static($result[0]) : null`: nothing exactly when
      no stored row joins the pair, and otherwise the first row that does. */
  function FirstMatch(rows: seq<TournamentTeam>, idTournament: int, idTeam: int): (r: Option<TournamentTeam>)
    ensures r.None? <==> forall e :: e in rows ==> !IsPair(e, idTournament, idTeam)
    ensures r.Some? ==> r.value in rows && IsPair(r.value, idTournament, idTeam)
    ensures r.Some? ==> exists k :: 0 <= k < |rows| && rows[k] == r.value
                                    && forall j :: 0 <= j < k ==> !IsPair(rows[j], idTournament, idTeam)
  {
    var m := Matching(rows, idTournament, idTeam);
    if |m| == 0 then
      assert forall e :: e in rows && IsPair(e, idTournament, idTeam) ==> e in m;
      None
    else
      assert m[0] in m;
      MatchingHead(rows, idTournament, idTeam);
      Some(m[0])
  }

  /** `findByTournamentAndTeam`: scans the enrollments in storage order and
      returns the first one for exactly this (tournament, team) pair. */
  method FindByTournamentAndTeam(rows: seq<TournamentTeam>, idTournament: int, idTeam: int)
    returns (r: Option<TournamentTeam>)
    ensures r == FirstMatch(rows, idTournament, idTeam)
    ensures r.Some? ==> r.value.idTournament == Some(idTournament) && r.value.idTeam == Some(idTeam)
    ensures r.None? <==> forall k :: 0 <= k < |rows| ==> !IsPair(rows[k], idTournament, idTeam)
    ensures r.Some? ==> exists k :: 0 <= k < |rows| && rows[k] == r.value
                                    && forall j :: 0 <= j < k ==> !IsPair(rows[j], idTournament, idTeam)
  {
    var i := 0;
    while i < |rows|
      invariant 0 <= i <= |rows|
      invariant forall j :: 0 <= j < i ==> !IsPair(rows[j], idTournament, idTeam)
      invariant Matching(rows[..i], idTournament, idTeam) == []
    {
      if IsPair(rows[i], idTournament, idTeam) {
        assert rows == rows[..i] + rows[i..];
        MatchingAppend(rows[..i], rows[i..], idTournament, idTeam);
        return Some(rows[i]);
      }
      assert rows[..i + 1] == rows[..i] + [rows[i]];
      MatchingAppend(rows[..i], [rows[i]], idTournament, idTeam);
      i := i + 1;
    }
    assert rows[..i] == rows;
    r := None;
  }

  /** Enrollments of other pairs, such as the same tournament with another
      team, do not change the lookup, wherever they are stored. */
  lemma OtherPairsIrrelevant(rows: seq<TournamentTeam>, k: int, e: TournamentTeam, idTournament: int, idTeam: int)
    requires 0 <= k <= |rows|
    requires !IsPair(e, idTournament, idTeam)
    ensures FirstMatch(rows[..k] + [e] + rows[k..], idTournament, idTeam) == FirstMatch(rows, idTournament, idTeam)
  {
    MatchingAppend(rows[..k] + [e], rows[k..], idTournament, idTeam);
    MatchingAppend(rows[..k], [e], idTournament, idTeam);
    MatchingAppend(rows[..k], rows[k..], idTournament, idTeam);
    assert rows[..k] + rows[k..] == rows;
  }

  /** Relations: the enrollment's tournament and team, each a belongs-to. */
  function EnrolledTournament(db: Db, e: TournamentTeam): (t: Option<Tournament>)
    ensures t.Some? <==> e.idTournament.Some? && TournamentExists(db, e.idTournament.value)
    ensures t.Some? ==> t.value in db.tournaments && Some(t.value.id) == e.idTournament
  {
    BelongsTo(db.tournaments, TournamentKey, e.idTournament)
  }

  function EnrolledTeam(db: Db, e: TournamentTeam): (t: Option<Team>)
    ensures t.Some? <==> e.idTeam.Some? && TeamExists(db, e.idTeam.value)
    ensures t.Some? ==> t.value in db.teams && Some(t.value.id) == e.idTeam
  {
    BelongsTo(db.teams, TeamKey, e.idTeam)
  }

  /** The pivot row's two belongs-to relations agree with the two
      many-to-many relations it serves: a stored enrollment whose tournament
      and team are both found puts that team among the tournament's teams and
      that tournament among the team's tournaments. */
  lemma EnrollmentJoinsBothSides(db: Db, e: TournamentTeam)
    requires e in db.enrollments
    requires EnrolledTournament(db, e).Some? && EnrolledTeam(db, e).Some?
    ensures EnrolledTournament(db, e).value.id == e.idTournament.value
    ensures EnrolledTeam(db, e).value.id == e.idTeam.value
    ensures EnrolledTeam(db, e).value in TournamentModel.Teams(db, e.idTournament.value)
    ensures EnrolledTournament(db, e).value in TeamModel.Tournaments(db, e.idTeam.value)
  {
    var k :| 0 <= k < |db.enrollments| && db.enrollments[k] == e;
    assert FindTeam(db, e.idTeam.value) == EnrolledTeam(db, e);
    assert FindTournament(db, e.idTournament.value) == EnrolledTournament(db, e);
  }
}
