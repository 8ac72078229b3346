/** The shared SQLite database `rifas.db` as an in-memory store: the rows of
    `talonario`, `numero` and `sorteo` in insertion order, and the
    `configuracion` singleton. A row's id is its 1-based position in its table,
    as SQLite assigns ids to a table that is never deleted from. */
module Store {
  import opened Domain
  import opened Digits
  import opened Prizes

  /** The tickets of book `b`, in table order: `filter_by(talonario_id=b)`. */
  function TicketsOf(ts: seq<Ticket>, b: nat): (r: seq<Ticket>)
    ensures |r| <= |ts|
  {
    if ts == [] then []
    else
      var last := ts[|ts| - 1];
      TicketsOf(ts[..|ts| - 1], b) + (if last.book == b then [last] else [])
  }

  /** The ticket rows `crear_talonario` inserts for book `id`. */
  function FreshBook(id: nat): (r: seq<Ticket>)
    ensures |r| == TicketsPerBook
  {
    seq(TicketsPerBook, i requires 0 <= i < TicketsPerBook => Ticket(id, i, Available, None))
  }

  /** Two ticket tables that hold the same books and numbers at the same places. */
  ghost predicate SamePlaces(xs: seq<Ticket>, ys: seq<Ticket>) {
    |xs| == |ys| && forall i :: 0 <= i < |xs| ==> xs[i].book == ys[i].book && xs[i].number == ys[i].number
  }

  class Database {
    var books: seq<Book>
    var tickets: seq<Ticket>
    var draws: seq<Draw>
    var config: Option<Config>

    /** The invariant both front ends keep: the configuration row exists, every
        ticket and every draw belongs to an existing book, every book holds the
        tickets 0 to 99 once each, and every recorded winning number is four
        digits. */
    ghost predicate Valid()
      reads this
    {
      && config.Some?
      && (forall i :: 0 <= i < |tickets| ==> 1 <= tickets[i].book <= |books|)
      && (forall b :: 1 <= b <= |books| ==> IsFullBook(TicketsOf(tickets, b), b))
      && (forall i :: 0 <= i < |draws| ==> 1 <= draws[i].book <= |books| && IsWinningNumber(draws[i].winning))
    }

    /** The first start-up on a new database: the tables are created, all
        empty, and a configuration row with the column defaults is added
        because none exists yet. */
    constructor ()
      ensures Valid()
      ensures books == [] && tickets == [] && draws == []
      ensures config == Some(DefaultConfig)
    {
      books, tickets, draws := [], [], [];
      config := Some(DefaultConfig);
    }

    /** `crear_talonario(nombre)`: insert the book, then its 100 tickets. */
    method CreateBook(name: string) returns (id: nat)
      requires Valid()
      modifies this
      ensures Valid()
      ensures books == old(books) + [Book(name)] && id == |books|
      ensures tickets == old(tickets) + FreshBook(id)
      ensures draws == old(draws) && config == old(config)
    {
      books := books + [Book(name)];
      id := |books|;
      ghost var before := tickets;
      for i := 0 to TicketsPerBook
        invariant tickets == before + FreshBook(id)[..i]
        invariant books == old(books) + [Book(name)] && id == |books|
        invariant draws == old(draws) && config == old(config)
      {
        assert FreshBook(id)[..i + 1] == FreshBook(id)[..i] + [Ticket(id, i, Available, None)];
        tickets := tickets + [Ticket(id, i, Available, None)];
      }
      assert FreshBook(id)[..TicketsPerBook] == FreshBook(id);
      CreateBookKeepsValid(before, tickets, |books|);
    }

    /** The invariant after `CreateBook`: the new book is full, the old books
        keep their tickets. */
    static lemma CreateBookKeepsValid(before: seq<Ticket>, after: seq<Ticket>, id: nat)
      requires id >= 1
      requires forall i :: 0 <= i < |before| ==> 1 <= before[i].book < id
      requires forall b :: 1 <= b < id ==> IsFullBook(TicketsOf(before, b), b)
      requires after == before + FreshBook(id)
      ensures forall i :: 0 <= i < |after| ==> 1 <= after[i].book <= id
      ensures forall b :: 1 <= b <= id ==> IsFullBook(TicketsOf(after, b), b)
    {
      forall b | 1 <= b <= id
        ensures IsFullBook(TicketsOf(after, b), b)
      {
        TicketsOfAppend(before, FreshBook(id), b);
        if b == id {
          TicketsOfNone(before, b);
          TicketsOfAll(FreshBook(id), b);
        } else {
          TicketsOfNone(FreshBook(id), b);
          assert TicketsOf(after, b) == TicketsOf(before, b);
        }
      }
      forall i | 0 <= i < |after|
        ensures 1 <= after[i].book <= id
      {
        if i >= |before| {
          assert after[i] == FreshBook(id)[i - |before|];
        }
      }
    }

    /** `accion_numero` once the ticket is found: apply the action to ticket
        `id` and report the ticket's book. */
    method ApplyTransition(id: nat, action: string, name: Option<string>) returns (book: nat)
      requires Valid()
      requires 1 <= id <= |tickets|
      modifies this
      ensures Valid()
      ensures tickets == old(tickets)[id - 1 := Transition(old(tickets)[id - 1], action, name)]
      ensures books == old(books) && draws == old(draws) && config == old(config)
      ensures book == old(tickets)[id - 1].book
    {
      book := tickets[id - 1].book;
      ghost var before := tickets;
      tickets := tickets[id - 1 := Transition(tickets[id - 1], action, name)];
      assert SamePlaces(before, tickets);
      forall b | 1 <= b <= |books|
        ensures IsFullBook(TicketsOf(tickets, b), b)
      {
        TicketsOfSamePlaces(before, tickets, b);
      }
      assert forall i :: 0 <= i < |tickets| ==> tickets[i].book == before[i].book;
    }

    /** `actualizar_configuracion` and the configuration POST: all four fields
        are overwritten, the row being created first when missing. */
    method UpdateConfig(price: real, pctFirst: real, pctMiddle: real, pctLast: real)
      modifies this
      ensures config == Some(Config(price, pctFirst, pctMiddle, pctLast))
      ensures books == old(books) && tickets == old(tickets) && draws == old(draws)
      ensures old(Valid()) ==> Valid()
    {
      config := Some(Config(price, pctFirst, pctMiddle, pctLast));
    }

    /** Record a draw of book `book`, after the check that the book exists and
        the number is four digits; on either failure nothing is recorded. */
    method ConductDraw(book: nat, winning: string) returns (r: Result<nat>)
      requires Valid()
      modifies this
      ensures Valid()
      ensures books == old(books) && tickets == old(tickets) && config == old(config)
      ensures !(1 <= book <= |books|) ==> r == Err(NotFound) && draws == old(draws)
      ensures 1 <= book <= |books| && !IsWinningNumber(winning) ==>
                r == Err(InvalidWinningNumber) && draws == old(draws)
      ensures 1 <= book <= |books| && IsWinningNumber(winning) ==>
                draws == old(draws) + [Draw(book, winning)] && r == Ok(|draws|)
    {
      if !(1 <= book <= |books|) {
        return Err(NotFound);
      }
      if !IsWinningNumber(winning) {
        return Err(InvalidWinningNumber);
      }
      draws := draws + [Draw(book, winning)];
      r := Ok(|draws|);
    }

    /** The prize report of draw `id` over the tickets of its book, as front end
        `fe` computes it; an unknown draw gives `NotFound`. */
    method SettleDraw(fe: FrontEnd, id: nat) returns (r: Result<Settlement>)
      requires Valid()
      ensures !(1 <= id <= |draws|) <==> r == Err(NotFound)
      ensures 1 <= id <= |draws| ==> r.Ok?
      ensures r.Ok? ==> IsSettlement(fe, TicketsOf(tickets, draws[id - 1].book), config.value,
                                     draws[id - 1].winning, r.value)
      ensures r.Ok? ==> |r.value.first.winners| <= 1 && |r.value.middle.winners| <= 1
                        && |r.value.last.winners| <= 1
    {
      if !(1 <= id <= |draws|) {
        return Err(NotFound);
      }
      var draw := draws[id - 1];
      var book := TicketsOf(tickets, draw.book);
      var s := Settle(fe, book, config.value, draw.winning);
      AtMostOneWinner(fe, book, draw.book, draw.winning, 0);
      AtMostOneWinner(fe, book, draw.book, draw.winning, 1);
      AtMostOneWinner(fe, book, draw.book, draw.winning, 2);
      r := Ok(s);
    }
  }

  // ---------------------------------------------------------------------------
  // Properties of the ticket table
  // ---------------------------------------------------------------------------

  lemma {:induction false} TicketsOfAppend(xs: seq<Ticket>, ys: seq<Ticket>, b: nat)
    ensures TicketsOf(xs + ys, b) == TicketsOf(xs, b) + TicketsOf(ys, b)
  {
    if ys == [] {
      assert xs + ys == xs;
    } else {
      var zs := xs + ys;
      assert zs[..|zs| - 1] == xs + ys[..|ys| - 1];
      TicketsOfAppend(xs, ys[..|ys| - 1], b);
    }
  }

  /** The tickets of book `b` are exactly the table's tickets that belong to `b`. */
  lemma {:induction false} TicketsOfMembers(ts: seq<Ticket>, b: nat)
    ensures forall t :: t in TicketsOf(ts, b) <==> t in ts && t.book == b
  {
    if ts != [] {
      TicketsOfMembers(ts[..|ts| - 1], b);
      assert ts == ts[..|ts| - 1] + [ts[|ts| - 1]];
    }
  }

  lemma {:induction false} TicketsOfNone(ts: seq<Ticket>, b: nat)
    requires forall i :: 0 <= i < |ts| ==> ts[i].book != b
    ensures TicketsOf(ts, b) == []
  {
    if ts != [] {
      TicketsOfNone(ts[..|ts| - 1], b);
    }
  }

  lemma {:induction false} TicketsOfAll(ts: seq<Ticket>, b: nat)
    requires forall i :: 0 <= i < |ts| ==> ts[i].book == b
    ensures TicketsOf(ts, b) == ts
  {
    if ts != [] {
      TicketsOfAll(ts[..|ts| - 1], b);
      assert ts == ts[..|ts| - 1] + [ts[|ts| - 1]];
    }
  }

  /** Changing only states and holders leaves every book's tickets at the same
      numbers. */
  lemma {:induction false} TicketsOfSamePlaces(xs: seq<Ticket>, ys: seq<Ticket>, b: nat)
    requires SamePlaces(xs, ys)
    ensures SamePlaces(TicketsOf(xs, b), TicketsOf(ys, b))
  {
    if xs != [] {
      var n := |xs| - 1;
      assert SamePlaces(xs[..n], ys[..n]);
      TicketsOfSamePlaces(xs[..n], ys[..n], b);
    }
  }

  /** A new book's tickets are numbered 0 to 99 with no gap and no repeat, all
      available and without a holder. */
  lemma FreshBookContents(id: nat)
    ensures IsFullBook(FreshBook(id), id)
    ensures forall i, j :: 0 <= i < j < TicketsPerBook ==> FreshBook(id)[i].number != FreshBook(id)[j].number
    ensures forall i :: 0 <= i < TicketsPerBook ==> FreshBook(id)[i].state == Available && FreshBook(id)[i].holder == None
  {
  }

  /** In a full book each window of a four-digit winning number is won by one
      ticket at most. */
  lemma AtMostOneWinner(fe: FrontEnd, ts: seq<Ticket>, book: nat, w: string, i: nat)
    requires IsFullBook(ts, book)
    requires IsWinningNumber(w)
    requires i <= 2
    ensures |Winners(fe, ts, Slice(w, i, i + 2))| <= 1
  {
    WindowsAreTwoDigits(w, i);
    WinnersOfFullBook(fe, ts, book, Slice(w, i, i + 2));
  }
}
