/** The Flask web app (app.py) over the shared database: the ticket action
    route with its 404 and 400 answers, and the totals of the book page. The
    form fields arrive as optional strings, absent when not posted. */
module FlaskApp {
  import opened Domain
  import opened Store

  /** Whether the action needs the `nombre` field. */
  predicate NeedsName(action: string) {
    action == "asignar" || action == "asignar_pagar"
  }

  /** `POST /accion_numero/<id>`: 404 for an unknown ticket, 400 for a missing
      or empty action and for an assignment without a `nombre` field (the
      request aborts before the commit); any other action, known or not, is
      applied and answers with the ticket's book. */
  method ApplyAction(db: Database, id: nat, action: Option<string>, name: Option<string>) returns (r: Result<nat>)
    requires db.Valid()
    modifies db
    ensures db.Valid()
    ensures db.books == old(db.books) && db.draws == old(db.draws) && db.config == old(db.config)
    ensures !(1 <= id <= |old(db.tickets)|) ==> r == Err(NotFound)
    ensures 1 <= id <= |old(db.tickets)| && (action == None || action == Some("")) ==> r == Err(BadRequest)
    ensures 1 <= id <= |old(db.tickets)| && action.Some? && NeedsName(action.value) && name == None ==>
              r == Err(BadRequest)
    ensures r.Err? ==> db.tickets == old(db.tickets)
    ensures r.Ok? <==> 1 <= id <= |old(db.tickets)| && action.Some? && action.value != ""
                       && (NeedsName(action.value) ==> name.Some?)
    ensures r.Ok? ==>
              && r.value == old(db.tickets)[id - 1].book
              && db.tickets == old(db.tickets)[id - 1 := Transition(old(db.tickets)[id - 1], action.value, name)]
  {
    if !(1 <= id <= |db.tickets|) {
      return Err(NotFound);
    }
    if action == None || action.value == "" {
      return Err(BadRequest);
    }
    if NeedsName(action.value) && name == None {
      return Err(BadRequest);
    }
    var book := db.ApplyTransition(id, action.value, name);
    r := Ok(book);
  }

  /** The totals of `ver_talonario`; an unknown book answers 404. The
      configuration row is read without a check. */
  method ViewBook(db: Database, id: nat) returns (r: Result<Totals>)
    requires db.config.Some?
    ensures r == Err(NotFound) <==> !(1 <= id <= |db.books|)
    ensures 1 <= id <= |db.books| ==> r.Ok?
    ensures r.Ok? ==> r.value == BookTotals(db.config.value, TicketsOf(db.tickets, id))
    ensures r.Ok? && db.Valid() && db.config.value.price >= 0.0 ==>
              0.0 <= r.value.collected <= r.value.expected && r.value.remaining >= 0.0
  {
    if !(1 <= id <= |db.books|) {
      return Err(NotFound);
    }
    var ts := TicketsOf(db.tickets, id);
    if db.Valid() && db.config.value.price >= 0.0 {
      TotalsBounded(db.config.value, ts);
    }
    r := Ok(BookTotals(db.config.value, ts));
  }
}
