/**
 The control flow of the tournament endpoints, without HTTP: the router, the
 request parsing, the response envelopes and the exception handlers are not
 part of this model. Create validates the decoded body as it is; update finds
 the tournament, merges the body over its stored attributes, validates the
 merge and only then calls `update`; delete calls `delete` only on a
 tournament that `find` returned.
 */
module TournamentRoutes {
  import opened Values
  import opened Entities
  import opened Validation
  import TournamentModel

  /** Where the PUT/PATCH handler stops. `Updated` is the point where
      `$tournament->update($data)` is called, with the body as sent. */
  datatype UpdateOutcome =
    | NotFound
    | Invalid(errors: map<string, string>)
    | Updated(target: Tournament, payload: Record)

  /** `array_merge($stored, $payload)` on string keys: the payload's values win
      and the stored keys it does not mention keep their values. */
  function Merge(stored: Record, payload: Record): (m: Record)
    ensures m.Keys == stored.Keys + payload.Keys
    ensures forall k :: k in payload ==> m[k] == payload[k]
    ensures forall k :: k in stored && k !in payload ==> m[k] == stored[k]
  {
    stored + payload
  }

  /** PUT/PATCH /tournaments/{id}. */
  function Update(db: Db, id: int, payload: Record): (r: UpdateOutcome)
    ensures r.NotFound? <==> !TournamentExists(db, id)
    ensures r.Invalid? ==>
              && r.errors != map[]
              && exists t :: FindTournament(db, id) == Some(t)
                             && r.errors == TournamentModel.Errors(Merge(TournamentArray(t), payload))
    ensures r.Updated? ==>
              && FindTournament(db, id) == Some(r.target)
              && r.target.id == id
              && r.payload == payload
              && TournamentModel.Errors(Merge(TournamentArray(r.target), payload)) == map[]
  {
    match FindTournament(db, id)
    case None => NotFound
    case Some(t) =>
      var errors := TournamentModel.Errors(Merge(TournamentArray(t), payload));
      if errors != map[] then Invalid(errors) else Updated(t, payload)
  }

  /** Where the DELETE handler stops; `Deleted` carries the store after
      `$tournament->delete()`, which removes the rows with that id and
      cascades to nothing. */
  datatype DeleteOutcome =
    | DeleteNotFound
    | Deleted(after: Db)

  function WithoutTournament(rows: seq<Tournament>, id: int): (rest: seq<Tournament>)
    ensures forall t :: t in rest <==> t in rows && t.id != id
    ensures forall t :: multiset(rest)[t] == if t.id == id then 0 else multiset(rows)[t]
  {
    if |rows| == 0 then []
    else
      var tail := WithoutTournament(rows[1..], id);
      assert rows == [rows[0]] + rows[1..];
      if rows[0].id == id then tail else [rows[0]] + tail
  }

  /** DELETE /tournaments/{id}. */
  function Delete(db: Db, id: int): (r: DeleteOutcome)
    ensures r.Deleted? <==> TournamentExists(db, id)
    ensures r.Deleted? ==>
              && !TournamentExists(r.after, id)
              && (forall t :: t in r.after.tournaments <==> t in db.tournaments && t.id != id)
              && (forall t :: multiset(r.after.tournaments)[t] == if t.id == id then 0 else multiset(db.tournaments)[t])
              && r.after.teams == db.teams && r.after.rounds == db.rounds
              && r.after.games == db.games && r.after.enrollments == db.enrollments
  {
    match FindTournament(db, id)
    case None => DeleteNotFound
    case Some(t) =>
      var after := db.(tournaments := WithoutTournament(db.tournaments, t.id));
      Deleted(after)
  }

  /** POST /tournaments validates the body as sent, with nothing merged. */
  function CreateErrors(payload: Record): map<string, string>
  {
    TournamentModel.Errors(payload)
  }

  /** What the POST handler does as written: `errorSent` is the validation
      error it sends, and `created` whether control reaches
      `Tournament::create($data)`. After sending the error the handler does not
      return, unlike the update and delete handlers. */
  datatype CreateTrace = CreateTrace(errorSent: Option<map<string, string>>, created: bool)

  function CreateAsWritten(payload: Record): (t: CreateTrace)
    ensures t.errorSent.Some? <==> !TournamentModel.Acceptable(payload)
    ensures t.errorSent.Some? ==> t.errorSent.value == CreateErrors(payload)
    ensures t.created
  {
    var errors := CreateErrors(payload);
    TournamentModel.ValidIff(payload);
    CreateTrace(if errors != map[] then Some(errors) else None, true)
  }

  /** Where a POST handler that returns after the validation error stops. */
  datatype CreateOutcome =
    | CreateInvalid(errors: map<string, string>)
    | Created(payload: Record)

  /** The create handler with the missing `return`: only an acceptable body
      reaches `create`, and it is created as sent. */
  function Create(payload: Record): (r: CreateOutcome)
    ensures r.Created? <==> TournamentModel.Acceptable(payload)
    ensures r.CreateInvalid? ==> r.errors == CreateErrors(payload) && r.errors != map[]
    ensures r.Created? ==> r.payload == payload
  {
    var errors := CreateErrors(payload);
    TournamentModel.ValidIff(payload);
    if errors != map[] then CreateInvalid(errors) else Created(payload)
  }

  /** A body without a name is reported invalid and, as written, still reaches
      `create`; the corrected handler stops before it. */
  lemma NamelessBodyReachesCreate(payload: Record)
    requires Blank(Get(payload, "name"))
    ensures CreateAsWritten(payload).errorSent.Some? && CreateAsWritten(payload).created
    ensures Create(payload).CreateInvalid?
  {
    TournamentModel.NameFieldVerdict(payload);
  }

  /** Update reaches `update` exactly when the stored tournament merged with
      the body is acceptable. */
  lemma UpdatedIff(db: Db, id: int, payload: Record)
    requires TournamentExists(db, id)
    ensures Update(db, id, payload).Updated? <==>
              TournamentModel.Acceptable(Merge(TournamentArray(FindTournament(db, id).value), payload))
  {
    TournamentModel.ValidIff(Merge(TournamentArray(FindTournament(db, id).value), payload));
  }

  /** A body that sends every validated field leaves nothing for the merge to
      supply: the update's verdict is the verdict on the body alone. */
  lemma FullPayloadIgnoresStored(stored: Record, payload: Record)
    requires forall f :: f in TournamentModel.ValidationRules() ==> f in payload
    ensures TournamentModel.Errors(Merge(stored, payload)) == TournamentModel.Errors(payload)
  {
    var rules := TournamentModel.ValidationRules();
    var m := Merge(stored, payload);
    forall f | f in rules
      ensures FieldError(f, rules[f], m) == FieldError(f, rules[f], payload)
    {
      TournamentModel.FieldReadsOnlyItself(f, m, payload);
    }
  }

  /** The stored tournament of the examples. */
  function StoredCup(): Tournament
  {
    Tournament(10, Some("Cup"), None, None, None, Some("pending"))
  }

  function StatusOnly(): Record
  {
    map["status" := VStr("completed")]
  }

  /** Completing a tournament by sending only its status: create would reject
      the body, which has no name. */
  lemma StatusOnlyCreateRejected()
    ensures "name" in CreateErrors(StatusOnly())
  {
    assert Get(StatusOnly(), "name") == VNull;
    TournamentModel.NameFieldVerdict(StatusOnly());
  }

  /** The same body sent to update is validated merged with the stored name,
      so it reaches `update`. */
  lemma StatusOnlyUpdateAccepted(db: Db)
    requires FindTournament(db, 10) == Some(StoredCup())
    ensures Update(db, 10, StatusOnly()).Updated?
  {
    var m := Merge(TournamentArray(StoredCup()), StatusOnly());
    assert Get(m, "name") == VStr("Cup");
    assert Get(m, "place") == VNull && Get(m, "winner_team_id") == VNull && Get(m, "status") == VStr("completed");
    TournamentModel.ValidIff(m);
  }
}
