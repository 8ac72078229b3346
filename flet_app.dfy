/** The Flet GUI (rifa_app.py) over the shared database: the ticket action
    handler, which returns the ticket's book or nothing, and the totals of the
    book view, which tolerate a missing configuration row. */
module FletApp {
  import opened Domain
  import opened Store

  /** The totals shown above the ticket grid: zero when there is no
      configuration row, the book totals otherwise. */
  function ShownTotals(config: Option<Config>, ts: seq<Ticket>): (r: Totals)
    ensures r.remaining == r.expected - r.collected
    ensures config.None? ==> r == Totals(0.0, 0.0, 0.0)
    ensures config.Some? ==> r == BookTotals(config.value, ts)
  {
    match config
    case None => Totals(0.0, 0.0, 0.0)
    case Some(c) => BookTotals(c, ts)
  }

  /** `accion_numero(numero_id, accion, nombre)`: an unknown ticket gives
      nothing and changes nothing; otherwise the action is applied and the
      ticket's book is returned. */
  method ApplyAction(db: Database, id: nat, action: string, name: Option<string>) returns (r: Option<nat>)
    requires db.Valid()
    modifies db
    ensures db.Valid()
    ensures db.books == old(db.books) && db.draws == old(db.draws) && db.config == old(db.config)
    ensures !(1 <= id <= |old(db.tickets)|) ==> r == None && db.tickets == old(db.tickets)
    ensures 1 <= id <= |old(db.tickets)| ==>
              && r == Some(old(db.tickets)[id - 1].book)
              && db.tickets == old(db.tickets)[id - 1 := Transition(old(db.tickets)[id - 1], action, name)]
  {
    if !(1 <= id <= |db.tickets|) {
      return None;
    }
    var book := db.ApplyTransition(id, action, name);
    r := Some(book);
  }

  /** The totals of `talonario_view`; an unknown book sends the GUI back home. */
  method ViewBook(db: Database, id: nat) returns (r: Option<Totals>)
    ensures r.None? <==> !(1 <= id <= |db.books|)
    ensures r.Some? ==> r.value == ShownTotals(db.config, TicketsOf(db.tickets, id))
    ensures r.Some? && db.Valid() && db.config.value.price >= 0.0 ==>
              0.0 <= r.value.collected <= r.value.expected && r.value.remaining >= 0.0
  {
    if !(1 <= id <= |db.books|) {
      return None;
    }
    var ts := TicketsOf(db.tickets, id);
    if db.Valid() && db.config.value.price >= 0.0 {
      TotalsBounded(db.config.value, ts);
    }
    r := Some(ShownTotals(db.config, ts));
  }
}
