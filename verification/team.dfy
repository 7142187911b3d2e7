/**
 The Team model: a squad with a name and an optional logo. Its rule table
 bounds the name and accepts a logo that is a URL or an absolute path. Its
 relation is the tournaments it is enrolled in, through `tournament_teams`.

 PHP's `filter_var($value, FILTER_VALIDATE_URL)` is a library call outside
 this model; it is the parameter `isUrl`, about which nothing is assumed.
 */
module TeamModel {
  import opened Values
  import opened Store
  import opened Entities
  import opened Validation
  import TournamentModel

  const ImgInvalid := "Il campo img deve essere un URL valido o un path valido"

  /** `preg_match('/^\/[^\/]/', $value)`: a slash followed by any character
      other than a slash. */
  predicate AbsolutePath(s: string)
  {
    |s| >= 2 && s[0] == '/' && s[1] != '/'
  }

  /** The `img` closure: null and '' pass; anything else must satisfy the URL
      test or start like an absolute path. An int is seen as its decimal text. */
  function ImgCheck(isUrl: string -> bool, v: Value): (err: Option<string>)
    ensures Blank(v) ==> err.None?
    ensures !Blank(v) ==> (err.None? <==> isUrl(Text(v)) || AbsolutePath(Text(v)))
    ensures err.Some? ==> err.value == ImgInvalid
  {
    if !Blank(v) && !isUrl(Text(v)) && !AbsolutePath(Text(v)) then Some(ImgInvalid) else None
  }

  /** `Team::validationRules()`. */
  function ValidationRules(isUrl: string -> bool): (rules: Rules)
    ensures rules.Keys == {"name", "img"}
    ensures Mandatory(rules["name"]) && HasSometimes(rules["img"])
  {
    var rules := map[
      "name" := [Required, Min(2), Max(100)],
      "img" := [Sometimes, Custom((f: string, v: Value, r: Record) => ImgCheck(isUrl, v))]
    ];
    assert rules["img"][0].Sometimes?;
    rules
  }

  /** `Team::validate($data)`: only `name` and `img` are reported, a blank
      name always fails `required`, and `img` errors only when it was sent. */
  function Errors(isUrl: string -> bool, rec: Record): (errs: map<string, string>)
    ensures errs.Keys <= {"name", "img"}
    ensures Blank(Get(rec, "name")) ==> "name" in errs && errs["name"] == RequiredMessage
    ensures "img" in errs ==> "img" in rec
  {
    RequiredAndSometimes(ValidationRules(isUrl), rec);
    Validate(ValidationRules(isUrl), rec)
  }

  /** `name` is required and, when a string, 2 to 100 characters long. */
  lemma NameFieldVerdict(isUrl: string -> bool, rec: Record)
    ensures var v := Get(rec, "name");
            ("name" in Errors(isUrl, rec) <==> Blank(v) || (v.VStr? && !TournamentModel.WithinBounds(v.s)))
  {
    var chain := ValidationRules(isUrl)["name"];
    assert !HasSometimes(chain);
    RunChainOfThree("name", Get(rec, "name"), chain, rec);
  }

  /** The logo rule: a blank logo passes; a non-empty string passes exactly
      when it is a URL or starts with a slash and then a non-slash. */
  lemma ImgFieldVerdict(isUrl: string -> bool, rec: Record, s: string)
    requires Get(rec, "img") == VStr(s)
    ensures s == "" ==> "img" !in Errors(isUrl, rec)
    ensures s != "" ==> ("img" !in Errors(isUrl, rec) <==> isUrl(s) || AbsolutePath(s))
  {
    var chain := ValidationRules(isUrl)["img"];
    assert HasSometimes(chain) by { assert chain[0].Sometimes?; }
    assert chain[1..] == [chain[1]];
  }

  /** The logo rule on any value: it errors exactly when the value is not
      blank and its text is neither a URL nor an absolute path. */
  lemma ImgVerdict(isUrl: string -> bool, rec: Record)
    ensures var v := Get(rec, "img");
            "img" in Errors(isUrl, rec) <==> !Blank(v) && !isUrl(Text(v)) && !AbsolutePath(Text(v))
  {
    var chain := ValidationRules(isUrl)["img"];
    assert HasSometimes(chain) by { assert chain[0].Sometimes?; }
    assert chain[1..] == [chain[1]];
  }

  /** What the table demands of a team: a present name within bounds, and a
      logo that is blank, a URL or an absolute path. */
  predicate Acceptable(isUrl: string -> bool, rec: Record)
  {
    var name := Get(rec, "name");
    var img := Get(rec, "img");
    && !Blank(name) && (name.VStr? ==> TournamentModel.WithinBounds(name.s))
    && (Blank(img) || isUrl(Text(img)) || AbsolutePath(Text(img)))
  }

  /** The whole table: a team is valid exactly when it is acceptable. */
  lemma ValidIff(isUrl: string -> bool, rec: Record)
    ensures Errors(isUrl, rec) == map[] <==> Acceptable(isUrl, rec)
  {
    NameFieldVerdict(isUrl, rec);
    ImgVerdict(isUrl, rec);
    if Errors(isUrl, rec) != map[] {
      var f :| f in Errors(isUrl, rec);
      assert f in ValidationRules(isUrl);
    }
  }

  function LogoRecord(img: string): Record
  {
    map["name" := VStr("Alpha"), "img" := VStr(img)]
  }

  /** "/logo.png" is accepted whatever the URL test says. */
  lemma AbsoluteLogoAccepted(isUrl: string -> bool)
    ensures "img" !in Errors(isUrl, LogoRecord("/logo.png"))
  {
    assert AbsolutePath("/logo.png");
    ImgFieldVerdict(isUrl, LogoRecord("/logo.png"), "/logo.png");
  }

  /** "logo.png" and "//x" do not look like absolute paths, so they are
      accepted only when the URL test accepts them. */
  lemma RelativeLogoNeedsUrl(isUrl: string -> bool)
    ensures "img" !in Errors(isUrl, LogoRecord("logo.png")) <==> isUrl("logo.png")
    ensures "img" !in Errors(isUrl, LogoRecord("//x")) <==> isUrl("//x")
  {
    assert !AbsolutePath("logo.png") && !AbsolutePath("//x");
    ImgFieldVerdict(isUrl, LogoRecord("logo.png"), "logo.png");
    ImgFieldVerdict(isUrl, LogoRecord("//x"), "//x");
  }

  /** `tournaments()`: many-to-many through `tournament_teams`, with the keys
      of `Tournament.teams` swapped: this key `id_team`, other key `id_tournament`. */
  function Tournaments(db: Db, id: int): (ts: seq<Tournament>)
    ensures forall t :: t in ts <==>
              exists k :: 0 <= k < |db.enrollments| && db.enrollments[k].idTeam == Some(id)
                          && db.enrollments[k].idTournament.Some?
                          && FindTournament(db, db.enrollments[k].idTournament.value) == Some(t)
  {
    TournamentsVia(db.tournaments, db.enrollments, id)
  }

  function TournamentsVia(tournaments: seq<Tournament>, pivot: seq<TournamentTeam>, id: int): (ts: seq<Tournament>)
    ensures forall t :: t in ts <==>
              exists k :: 0 <= k < |pivot| && pivot[k].idTeam == Some(id) && pivot[k].idTournament.Some?
                          && Find(tournaments, TournamentKey, pivot[k].idTournament.value) == Some(t)
  {
    if |pivot| == 0 then []
    else
      var rest := TournamentsVia(tournaments, pivot[1..], id);
      assert forall k :: 1 <= k < |pivot| ==> pivot[k] == pivot[1..][k - 1];
      var e := pivot[0];
      if e.idTeam == Some(id) && e.idTournament.Some? && Find(tournaments, TournamentKey, e.idTournament.value).Some?
      then [Find(tournaments, TournamentKey, e.idTournament.value).value] + rest
      else rest
  }

  /** The two sides of the pivot agree: for a stored tournament and team (each
      the row `find` returns for its id), the team is among the tournament's
      teams exactly when the tournament is among the team's tournaments. */
  lemma EnrollmentSymmetric(db: Db, t: Tournament, m: Team)
    requires FindTournament(db, t.id) == Some(t)
    requires FindTeam(db, m.id) == Some(m)
    ensures m in TournamentModel.Teams(db, t.id) <==> t in Tournaments(db, m.id)
  {
    if m in TournamentModel.Teams(db, t.id) {
      var k :| 0 <= k < |db.enrollments| && db.enrollments[k].idTournament == Some(t.id)
                && db.enrollments[k].idTeam.Some? && FindTeam(db, db.enrollments[k].idTeam.value) == Some(m);
      assert db.enrollments[k].idTeam == Some(m.id);
    }
    if t in Tournaments(db, m.id) {
      var k :| 0 <= k < |db.enrollments| && db.enrollments[k].idTeam == Some(m.id)
                && db.enrollments[k].idTournament.Some? && FindTournament(db, db.enrollments[k].idTournament.value) == Some(t);
      assert db.enrollments[k].idTournament == Some(t.id);
    }
  }
}
