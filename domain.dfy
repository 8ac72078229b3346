/** The records of the raffle database (configuracion, talonario, numero, sorteo)
    and the two pieces of logic that both front ends share: the ticket state
    machine and the book totals. */
module Domain {

  datatype Option<T> = None | Some(value: T)

  /** Why an operation did nothing: an unknown id (HTTP 404, or a return to the
      home view in the GUI), a malformed request (HTTP 400), or a winning number
      that is not four digits. */
  datatype Failure = NotFound | BadRequest | InvalidWinningNumber

  datatype Result<T> = Ok(value: T) | Err(error: Failure)

  /** The two front ends over the same database: the Flet GUI (rifa_app.py) and
      the Flask web app (app.py). They settle a draw differently. */
  datatype FrontEnd = Flet | Flask

  /** The stored `estado` strings 'disponible', 'ocupado' and 'pagado'. */
  datatype State = Available | Assigned | Paid

  /** A `numero` row: owning book id, ticket number, state and `nombre_persona`. */
  datatype Ticket = Ticket(book: nat, number: nat, state: State, holder: Option<string>)

  /** A `talonario` row. */
  datatype Book = Book(name: string)

  /** A `sorteo` row (its timestamp is not modelled). */
  datatype Draw = Draw(book: nat, winning: string)

  /** The `configuracion` singleton: ticket price and the percentages of the
      expected revenue paid to the first, middle and last two digits. */
  datatype Config = Config(price: real, pctFirst: real, pctMiddle: real, pctLast: real)

  /** The column defaults of `configuracion`. */
  const DefaultConfig := Config(100.0, 25.0, 10.0, 40.0)

  /** Every book has this many tickets, numbered 0 to TicketsPerBook - 1. */
  const TicketsPerBook := 100

  /** The tickets of one book as a book is created: exactly TicketsPerBook of
      them, the i-th numbered i, all belonging to `book`. */
  ghost predicate IsFullBook(ts: seq<Ticket>, book: nat) {
    |ts| == TicketsPerBook && forall i :: 0 <= i < |ts| ==> ts[i].book == book && ts[i].number == i
  }

  // ---------------------------------------------------------------------------
  // Ticket state machine (accion_numero)
  // ---------------------------------------------------------------------------

  /** The four recognised action names. */
  predicate IsKnownAction(action: string) {
    action == "asignar" || action == "asignar_pagar" || action == "pagar" || action == "desasignar"
  }

  /** The effect of one action on one ticket; any other action string is ignored. */
  function Transition(t: Ticket, action: string, name: Option<string>): (r: Ticket)
    ensures r.book == t.book && r.number == t.number
    ensures !IsKnownAction(action) ==> r == t
  {
    if action == "asignar" then t.(state := Assigned, holder := name)
    else if action == "asignar_pagar" then t.(state := Paid, holder := name)
    else if action == "pagar" then (if t.state == Assigned then t.(state := Paid) else t)
    else if action == "desasignar" then t.(state := Available, holder := None)
    else t
  }

  lemma AssignFromAnyState(t: Ticket, name: Option<string>)
    ensures Transition(t, "asignar", name) == Ticket(t.book, t.number, Assigned, name)
  {
  }

  lemma AssignAndPayFromAnyState(t: Ticket, name: Option<string>)
    ensures Transition(t, "asignar_pagar", name) == Ticket(t.book, t.number, Paid, name)
  {
  }

  /** Paying only acts on an assigned ticket, keeps its holder, and whatever name
      comes with the request is ignored. */
  lemma PayOnlyFromAssigned(t: Ticket, name: Option<string>)
    ensures t.state == Assigned ==> Transition(t, "pagar", name) == Ticket(t.book, t.number, Paid, t.holder)
    ensures t.state != Assigned ==> Transition(t, "pagar", name) == t
  {
  }

  lemma UnassignClears(t: Ticket, name: Option<string>)
    ensures Transition(t, "desasignar", name) == Ticket(t.book, t.number, Available, None)
  {
  }

  /** Repeating a request changes nothing more. */
  lemma TransitionIdempotent(t: Ticket, action: string, name: Option<string>)
    ensures Transition(Transition(t, action, name), action, name) == Transition(t, action, name)
  {
  }

  /** A ticket ends up paid exactly when the action pays it outright, or pays an
      assigned ticket, or leaves an already paid ticket alone. */
  lemma PaidAfterTransition(t: Ticket, action: string, name: Option<string>)
    ensures Transition(t, action, name).state == Paid <==>
      action == "asignar_pagar" ||
      (action == "pagar" && t.state in {Assigned, Paid}) ||
      (t.state == Paid && action != "asignar" && action != "desasignar")
  {
  }

  // ---------------------------------------------------------------------------
  // Book totals (shown with the ticket grid)
  // ---------------------------------------------------------------------------

  /** Number of paid tickets in `ts`. */
  function PaidCount(ts: seq<Ticket>): (n: nat)
    ensures n <= |ts|
    ensures n == |ts| <==> forall i :: 0 <= i < |ts| ==> ts[i].state == Paid
    ensures n == 0 <==> forall i :: 0 <= i < |ts| ==> ts[i].state != Paid
  {
    if ts == [] then 0
    else PaidCount(ts[..|ts| - 1]) + (if ts[|ts| - 1].state == Paid then 1 else 0)
  }

  /** Expected revenue of the whole book, amount collected so far, and what remains. */
  datatype Totals = Totals(expected: real, collected: real, remaining: real)

  function BookTotals(c: Config, ts: seq<Ticket>): Totals {
    var expected := TicketsPerBook as real * c.price;
    var collected := PaidCount(ts) as real * c.price;
    Totals(expected, collected, expected - collected)
  }

  /** With a non-negative price and at most a book's worth of tickets, nothing is
      collected beyond what is expected. */
  lemma TotalsBounded(c: Config, ts: seq<Ticket>)
    requires c.price >= 0.0
    requires |ts| <= TicketsPerBook
    ensures 0.0 <= BookTotals(c, ts).collected <= BookTotals(c, ts).expected
    ensures BookTotals(c, ts).remaining >= 0.0
  {
    var p := PaidCount(ts) as real;
    var n := TicketsPerBook as real;
    Distribute(n, p, c.price);
    NonNegativeProduct(p, c.price);
    NonNegativeProduct(n - p, c.price);
  }

  /** What remains to collect is the price of the tickets that are not paid. */
  lemma RemainingIsUnpaidPrice(c: Config, ts: seq<Ticket>)
    ensures BookTotals(c, ts).remaining == (TicketsPerBook - PaidCount(ts)) as real * c.price
  {
    Distribute(TicketsPerBook as real, PaidCount(ts) as real, c.price);
  }

  lemma NonNegativeProduct(a: real, b: real)
    requires a >= 0.0 && b >= 0.0
    ensures a * b >= 0.0
  {
  }

  lemma Distribute(a: real, b: real, c: real)
    ensures a * c - b * c == (a - b) * c
  {
  }
}
