/** Draw settlement: the three windows of the winning number, the three prize
    pools, the paid tickets that win each window, the equal share of each pool,
    and the per-person totals. Written once; the front end decides the matching
    rule (`Matches`) and which names are credited (`Ledger.Credited`). */
module Prizes {
  import opened Domain
  import opened Digits
  import opened Ledger

  // ---------------------------------------------------------------------------
  // Matching
  // ---------------------------------------------------------------------------

  /** Whether a ticket number matches a window. The GUI compares the unpadded
      text of the number against the pattern `window%`; the web app pads the
      number to two digits and compares its first two characters for equality. */
  predicate Matches(fe: FrontEnd, number: nat, window: string) {
    match fe
    case Flet => StartsWith(DecimalString(number), window)
    case Flask => Slice(ZeroPadded(number), 0, 2) == window
  }

  /** A ticket wins a window when it is paid and its number matches. */
  predicate Wins(fe: FrontEnd, t: Ticket, window: string) {
    t.state == Paid && Matches(fe, t.number, window)
  }

  /** The winning tickets of a window, in table order. */
  function Winners(fe: FrontEnd, tickets: seq<Ticket>, window: string): (r: seq<Ticket>)
    ensures |r| <= |tickets|
  {
    if tickets == [] then []
    else
      var last := tickets[|tickets| - 1];
      Winners(fe, tickets[..|tickets| - 1], window) + (if Wins(fe, last, window) then [last] else [])
  }

  // ---------------------------------------------------------------------------
  // Pools and shares
  // ---------------------------------------------------------------------------

  /** `total_esperado`: the revenue of a fully sold book. */
  function ExpectedRevenue(c: Config): real {
    TicketsPerBook as real * c.price
  }

  /** A prize pool: the given percentage of the expected revenue. */
  function Pool(c: Config, pct: real): (r: real)
    ensures r == c.price * pct
  {
    ExpectedRevenue(c) * pct / 100.0
  }

  /** What each winner of a window receives: an equal part of the pool, or
      nothing when there is no winner. */
  function Share(pool: real, winners: nat): (r: real)
    ensures winners > 0 ==> winners as real * r == pool
    ensures winners == 0 ==> r == 0.0
  {
    if winners == 0 then 0.0 else pool / winners as real
  }

  /** The prize credited to each winner of a window, in order. */
  function Awards(winners: seq<Ticket>, share: real): (r: seq<Award>)
    ensures |r| == |winners|
    ensures forall i :: 0 <= i < |r| ==> r[i] == Award(winners[i].holder, share)
  {
    seq(|winners|, i requires 0 <= i < |winners| => Award(winners[i].holder, share))
  }

  // ---------------------------------------------------------------------------
  // Settlement
  // ---------------------------------------------------------------------------

  /** One window of the report: its two digits, its pool, its winners and the
      share of each winner. */
  datatype WindowResult = WindowResult(digits: string, pool: real, winners: seq<Ticket>, share: real)

  /** The settlement report: expected revenue, the first, middle and last
      windows, and the per-person totals. */
  datatype Settlement = Settlement(expected: real, first: WindowResult, middle: WindowResult,
                                   last: WindowResult, perPerson: seq<PersonPrize>)

  /** Every prize credited, window by window: first, then middle, then last. */
  function AllAwards(s: Settlement): seq<Award> {
    Awards(s.first.winners, s.first.share) + Awards(s.middle.winners, s.middle.share)
      + Awards(s.last.winners, s.last.share)
  }

  ghost predicate IsWindowResult(fe: FrontEnd, tickets: seq<Ticket>, window: string, pool: real, r: WindowResult) {
    && r.digits == window
    && r.pool == pool
    && r.winners == Winners(fe, tickets, window)
    && r.share == Share(pool, |r.winners|)
  }

  /** What a settlement report must hold: windows `[:2]`, `[1:3]` and `[2:]` of
      the winning number, their pools and winners, and one entry per credited
      name, in first-seen order, with everything that name won. */
  ghost predicate IsSettlement(fe: FrontEnd, tickets: seq<Ticket>, c: Config, winning: string, s: Settlement) {
    && s.expected == ExpectedRevenue(c)
    && IsWindowResult(fe, tickets, Slice(winning, 0, 2), Pool(c, c.pctFirst), s.first)
    && IsWindowResult(fe, tickets, Slice(winning, 1, 3), Pool(c, c.pctMiddle), s.middle)
    && IsWindowResult(fe, tickets, Slice(winning, 2, |winning|), Pool(c, c.pctLast), s.last)
    && ReportsPerPerson(fe, AllAwards(s), s.perPerson)
  }

  /** `ps` lists every credited name of `awards` once, in first-seen order, with
      everything awarded to that name. */
  ghost predicate ReportsPerPerson(fe: FrontEnd, awards: seq<Award>, ps: seq<PersonPrize>) {
    var names := FirstSeen(CreditedNames(fe, awards));
    && |ps| == |names|
    && forall i :: 0 <= i < |names| ==> ps[i] == PersonPrize(names[i], AwardedTo(awards, names[i]))
  }

  /** The list built from the dictionary that crediting `awards` leaves behind
      names every credited winner once, in first-seen order, with everything
      they won. */
  lemma ListingReports(fe: FrontEnd, awards: seq<Award>)
    ensures forall k :: k in TallyFrom(fe, EmptyTally, awards).order ==> k in TallyFrom(fe, EmptyTally, awards).totals
    ensures ReportsPerPerson(fe, awards, Listing(TallyFrom(fe, EmptyTally, awards)))
  {
    TallyMatchesReference(fe, awards);
  }

  /** One of the three crediting loops: every winner of a window is credited the
      window's share. */
  method CreditWindow(fe: FrontEnd, t: Tally, winners: seq<Ticket>, pool: real) returns (r: Tally)
    ensures r == TallyFrom(fe, t, Awards(winners, Share(pool, |winners|)))
  {
    r := t;
    for i := 0 to |winners|
      invariant r == TallyFrom(fe, t, Awards(winners[..i], Share(pool, |winners|)))
    {
      var share := Share(pool, |winners|);
      ghost var done := Awards(winners[..i + 1], share);
      assert done[..i] == Awards(winners[..i], share);
      r := AddPrize(fe, r, Award(winners[i].holder, share));
    }
    assert winners[..|winners|] == winners;
  }

  /** Settle a draw over the tickets of its book. */
  method Settle(fe: FrontEnd, tickets: seq<Ticket>, c: Config, winning: string) returns (s: Settlement)
    ensures IsSettlement(fe, tickets, c, winning, s)
  {
    var expected := ExpectedRevenue(c);
    var poolFirst, poolMiddle, poolLast := Pool(c, c.pctFirst), Pool(c, c.pctMiddle), Pool(c, c.pctLast);
    var first, middle, last := Slice(winning, 0, 2), Slice(winning, 1, 3), Slice(winning, 2, |winning|);
    var winnersFirst := Winners(fe, tickets, first);
    var winnersMiddle := Winners(fe, tickets, middle);
    var winnersLast := Winners(fe, tickets, last);

    var tally := EmptyTally;
    tally := CreditWindow(fe, tally, winnersFirst, poolFirst);
    tally := CreditWindow(fe, tally, winnersMiddle, poolMiddle);
    tally := CreditWindow(fe, tally, winnersLast, poolLast);

    s := Settlement(expected,
                    WindowResult(first, poolFirst, winnersFirst, Share(poolFirst, |winnersFirst|)),
                    WindowResult(middle, poolMiddle, winnersMiddle, Share(poolMiddle, |winnersMiddle|)),
                    WindowResult(last, poolLast, winnersLast, Share(poolLast, |winnersLast|)),
                    []);
    ghost var a1 := Awards(s.first.winners, s.first.share);
    ghost var a2 := Awards(s.middle.winners, s.middle.share);
    ghost var a3 := Awards(s.last.winners, s.last.share);
    TallyFromAppend(fe, EmptyTally, a1, a2);
    TallyFromAppend(fe, EmptyTally, a1 + a2, a3);
    assert tally == TallyFrom(fe, EmptyTally, AllAwards(s));
    ListingReports(fe, AllAwards(s));
    s := s.(perPerson := Listing(tally));
  }

  // ---------------------------------------------------------------------------
  // Properties: matching
  // ---------------------------------------------------------------------------

  /** In the GUI a number below 100 matches a two-digit window exactly when it
      has two digits and they are the window's: tickets 0 to 9 never match. */
  lemma FletMatchIff(n: nat, w: string)
    requires n < 100
    requires |w| == 2 && IsDigitString(w)
    ensures Matches(Flet, n, w) <==> 10 <= n && n == DecimalValue(w)
  {
    var s := DecimalString(n);
    DecimalStringLength(n);
    DecimalRoundTrip(n);
    if 10 <= n {
      assert s[..|w|] == s;
      if n == DecimalValue(w) {
        DecimalValueInjective(s, w);
      }
    }
  }

  /** In the web app a number below 100 matches a two-digit window exactly when
      the window, read as a number, is that number: ticket 7 matches "07". */
  lemma FlaskMatchIff(n: nat, w: string)
    requires n < 100
    requires |w| == 2 && IsDigitString(w)
    ensures Matches(Flask, n, w) <==> n == DecimalValue(w)
  {
    var p := ZeroPadded(n);
    ZeroPaddedLength(n);
    ZeroPaddedRoundTrip(n);
    assert Slice(p, 0, 2) == p;
    if n == DecimalValue(w) {
      DecimalValueInjective(p, w);
    }
  }

  /** In the GUI no single-digit ticket matches any two-character window. */
  lemma FletSingleDigitsNeverMatch(n: nat, w: string)
    requires n < 10
    requires |w| == 2
    ensures !Matches(Flet, n, w)
  {
    DecimalStringLength(n);
  }

  /** From 10 to 99 the two matching rules agree on every two-character window. */
  lemma MatchRulesAgreeFromTen(n: nat, w: string)
    requires 10 <= n < 100
    requires |w| == 2
    ensures Matches(Flet, n, w) == Matches(Flask, n, w)
  {
    DecimalStringLength(n);
    var s := DecimalString(n);
    assert s[..|w|] == s;
    assert Slice(ZeroPadded(n), 0, 2) == s;
  }

  // ---------------------------------------------------------------------------
  // Properties: winners
  // ---------------------------------------------------------------------------

  /** The winners of a window are exactly the tickets that win it. */
  lemma {:induction false} WinnersMembers(fe: FrontEnd, tickets: seq<Ticket>, window: string)
    ensures forall t :: t in Winners(fe, tickets, window) <==> t in tickets && Wins(fe, t, window)
  {
    if tickets != [] {
      var init := tickets[..|tickets| - 1];
      WinnersMembers(fe, init, window);
      assert tickets == init + [tickets[|tickets| - 1]];
    }
  }

  lemma {:induction false} WinnersAppend(fe: FrontEnd, xs: seq<Ticket>, ys: seq<Ticket>, w: string)
    ensures Winners(fe, xs + ys, w) == Winners(fe, xs, w) + Winners(fe, ys, w)
  {
    if ys == [] {
      assert xs + ys == xs;
    } else {
      var zs := xs + ys;
      assert zs[..|zs| - 1] == xs + ys[..|ys| - 1];
      WinnersAppend(fe, xs, ys[..|ys| - 1], w);
    }
  }

  /** A two-digit string stands for ten times its first digit plus its second,
      a number below 100. */
  lemma TwoDigitValue(w: string)
    requires |w| == 2 && IsDigitString(w)
    ensures DecimalValue(w) == 10 * DigitValue(w[0]) + DigitValue(w[1])
    ensures DecimalValue(w) < 100
  {
    var init := w[..1];
    assert init[..0] == [];
    assert DecimalValue(init) == DigitValue(w[0]);
  }

  /** Which numbers below 100 match a two-digit window, by front end. */
  lemma MatchesBelowHundred(fe: FrontEnd, n: nat, w: string)
    requires n < 100
    requires |w| == 2 && IsDigitString(w)
    ensures Matches(fe, n, w) <==> n == DecimalValue(w) && (fe == Flask || 10 <= n)
  {
    if fe == Flet { FletMatchIff(n, w); } else { FlaskMatchIff(n, w); }
  }

  /** In a book as created, numbers are unique, so a window has at most one
      winner: the ticket whose number the window spells, if it is paid (and, in
      the GUI, if that number has two digits). */
  lemma WinnersOfFullBook(fe: FrontEnd, ts: seq<Ticket>, book: nat, w: string)
    requires IsFullBook(ts, book)
    requires |w| == 2 && IsDigitString(w)
    ensures DecimalValue(w) < |ts|
    ensures Winners(fe, ts, w) ==
      if ts[DecimalValue(w)].state == Paid && (fe == Flask || 10 <= DecimalValue(w))
      then [ts[DecimalValue(w)]] else []
  {
    var v := DecimalValue(w);
    TwoDigitValue(w);
    NoWinnersBefore(fe, ts, book, w);
    NoWinnersAfter(fe, ts, book, w);
    MatchesBelowHundred(fe, v, w);
    WinnersAround(fe, ts, v, w);
  }

  /** The winners of a table are those before place `v`, then the ticket at `v`
      if it wins, then those after. */
  lemma WinnersAround(fe: FrontEnd, ts: seq<Ticket>, v: nat, w: string)
    requires v < |ts|
    ensures Winners(fe, ts, w) == Winners(fe, ts[..v], w)
      + (if Wins(fe, ts[v], w) then [ts[v]] else []) + Winners(fe, ts[v + 1..], w)
  {
    var before, after := ts[..v], ts[v + 1..];
    assert ts == before + [ts[v]] + after;
    WinnersAppend(fe, before + [ts[v]], after, w);
    WinnersAppend(fe, before, [ts[v]], w);
    WinnersOfOne(fe, ts[v], w);
  }

  /** No ticket numbered below the window's value wins it. */
  lemma NoWinnersBefore(fe: FrontEnd, ts: seq<Ticket>, book: nat, w: string)
    requires IsFullBook(ts, book)
    requires |w| == 2 && IsDigitString(w)
    ensures DecimalValue(w) < |ts|
    ensures Winners(fe, ts[..DecimalValue(w)], w) == []
  {
    var v := DecimalValue(w);
    TwoDigitValue(w);
    var before := ts[..v];
    forall i | 0 <= i < |before| ensures !Wins(fe, before[i], w) {
      assert before[i] == ts[i];
      MatchesBelowHundred(fe, i, w);
    }
    NoWinners(fe, before, w);
  }

  /** No ticket numbered above the window's value wins it. */
  lemma NoWinnersAfter(fe: FrontEnd, ts: seq<Ticket>, book: nat, w: string)
    requires IsFullBook(ts, book)
    requires |w| == 2 && IsDigitString(w)
    ensures DecimalValue(w) < |ts|
    ensures Winners(fe, ts[DecimalValue(w) + 1..], w) == []
  {
    var v := DecimalValue(w);
    TwoDigitValue(w);
    var after := ts[v + 1..];
    forall i | 0 <= i < |after| ensures !Wins(fe, after[i], w) {
      assert after[i] == ts[v + 1 + i];
      MatchesBelowHundred(fe, v + 1 + i, w);
    }
    NoWinners(fe, after, w);
  }

  lemma {:induction false} NoWinners(fe: FrontEnd, xs: seq<Ticket>, w: string)
    requires forall i :: 0 <= i < |xs| ==> !Wins(fe, xs[i], w)
    ensures Winners(fe, xs, w) == []
  {
    if xs != [] {
      NoWinners(fe, xs[..|xs| - 1], w);
    }
  }

  // ---------------------------------------------------------------------------
  // Properties: pools, shares and totals
  // ---------------------------------------------------------------------------

  lemma {:induction false} CreditedSumAppend(fe: FrontEnd, xs: seq<Award>, ys: seq<Award>)
    ensures CreditedSum(fe, xs + ys) == CreditedSum(fe, xs) + CreditedSum(fe, ys)
  {
    if ys == [] {
      assert xs + ys == xs;
    } else {
      var zs := xs + ys;
      assert zs[..|zs| - 1] == xs + ys[..|ys| - 1];
      CreditedSumAppend(fe, xs, ys[..|ys| - 1]);
    }
  }

  /** The web app credits every winner, so a window hands out exactly its pool
      when it has winners, and nothing otherwise. */
  lemma {:induction false} FlaskWindowPaysPool(winners: seq<Ticket>, pool: real)
    ensures CreditedSum(Flask, Awards(winners, Share(pool, |winners|)))
         == if |winners| == 0 then 0.0 else pool
  {
    var share := Share(pool, |winners|);
    AwardsSum(winners, share);
  }

  lemma {:induction false} AwardsSum(winners: seq<Ticket>, share: real)
    ensures CreditedSum(Flask, Awards(winners, share)) == |winners| as real * share
  {
    if winners != [] {
      var init := winners[..|winners| - 1];
      var a := Awards(winners, share);
      assert a[..|a| - 1] == Awards(init, share);
      AwardsSum(init, share);
    }
  }

  /** The tickets of `ws` held by `n`, in order. */
  function HeldBy(ws: seq<Ticket>, n: Option<string>): seq<Ticket> {
    if ws == [] then []
    else HeldBy(ws[..|ws| - 1], n) + (if ws[|ws| - 1].holder == n then [ws[|ws| - 1]] else [])
  }

  /** What a window credits a name: its share once per winning ticket the name
      holds. */
  lemma {:induction false} AwardedToAwards(ws: seq<Ticket>, share: real, n: Option<string>)
    ensures AwardedTo(Awards(ws, share), n) == |HeldBy(ws, n)| as real * share
  {
    AwardedToHeld(ws, share, n);
    AwardsSum(HeldBy(ws, n), share);
  }

  /** What a window credits `n` is what the web app's rule credits the awards of
      the winning tickets `n` holds. */
  lemma {:induction false} AwardedToHeld(ws: seq<Ticket>, share: real, n: Option<string>)
    ensures AwardedTo(Awards(ws, share), n) == CreditedSum(Flask, Awards(HeldBy(ws, n), share))
  {
    if ws == [] {
      assert Awards(ws, share) == [];
    } else {
      var init, last := ws[..|ws| - 1], ws[|ws| - 1];
      AwardedToLastAward(ws, share, n);
      AwardedToHeld(init, share, n);
      if last.holder == n {
        var held := HeldBy(ws, n);
        assert held == HeldBy(init, n) + [last];
        assert held[..|held| - 1] == HeldBy(init, n);
        CreditedSumLastAward(held, share);
        assert AwardedTo(Awards(ws, share), n) == AwardedTo(Awards(init, share), n) + share;
        assert CreditedSum(Flask, Awards(held, share)) == CreditedSum(Flask, Awards(HeldBy(init, n), share)) + share;
      } else {
        assert HeldBy(ws, n) == HeldBy(init, n);
      }
    }
  }

  /** The last winner's award adds the share when the winner's holder is `n`. */
  lemma AwardedToLastAward(ws: seq<Ticket>, share: real, n: Option<string>)
    requires ws != []
    ensures AwardedTo(Awards(ws, share), n)
         == AwardedTo(Awards(ws[..|ws| - 1], share), n) + (if ws[|ws| - 1].holder == n then share else 0.0)
  {
    var a := Awards(ws, share);
    assert a[..|a| - 1] == Awards(ws[..|ws| - 1], share);
  }

  /** With the web app's rule, the last winner's award adds the share. */
  lemma CreditedSumLastAward(ws: seq<Ticket>, share: real)
    requires ws != []
    ensures CreditedSum(Flask, Awards(ws, share)) == CreditedSum(Flask, Awards(ws[..|ws| - 1], share)) + share
  {
    var a := Awards(ws, share);
    assert a[..|a| - 1] == Awards(ws[..|ws| - 1], share);
  }

  lemma {:induction false} AwardedToAppend(xs: seq<Award>, ys: seq<Award>, n: Option<string>)
    ensures AwardedTo(xs + ys, n) == AwardedTo(xs, n) + AwardedTo(ys, n)
  {
    if ys == [] {
      assert xs + ys == xs;
    } else {
      var zs := xs + ys;
      assert zs[..|zs| - 1] == xs + ys[..|ys| - 1];
      AwardedToAppend(xs, ys[..|ys| - 1], n);
    }
  }

  /** Every listed person receives, from each window, its share once per
      winning ticket they hold: a ticket that wins several windows is credited
      in each, and a person holding several winners of one window is credited
      each of them. This holds of every report (`IsSettlement` includes
      `ReportsPerPerson`). */
  lemma PersonTotal(fe: FrontEnd, s: Settlement, n: Option<string>)
    requires ReportsPerPerson(fe, AllAwards(s), s.perPerson)
    ensures forall i :: 0 <= i < |s.perPerson| && s.perPerson[i].name == n ==>
              s.perPerson[i].prize
                == |HeldBy(s.first.winners, n)| as real * s.first.share
                 + |HeldBy(s.middle.winners, n)| as real * s.middle.share
                 + |HeldBy(s.last.winners, n)| as real * s.last.share
  {
    AwardedToAll(s, n);
    forall i | 0 <= i < |s.perPerson| && s.perPerson[i].name == n
      ensures s.perPerson[i].prize == AwardedTo(AllAwards(s), n)
    {
      ListedPrize(fe, s, i);
    }
  }

  lemma ListedPrize(fe: FrontEnd, s: Settlement, i: nat)
    requires ReportsPerPerson(fe, AllAwards(s), s.perPerson)
    requires i < |s.perPerson|
    ensures s.perPerson[i].prize == AwardedTo(AllAwards(s), s.perPerson[i].name)
  {
  }

  /** Everything a report's windows award a name, window by window. */
  lemma AwardedToAll(s: Settlement, n: Option<string>)
    ensures AwardedTo(AllAwards(s), n)
         == |HeldBy(s.first.winners, n)| as real * s.first.share
          + |HeldBy(s.middle.winners, n)| as real * s.middle.share
          + |HeldBy(s.last.winners, n)| as real * s.last.share
  {
    var a1 := Awards(s.first.winners, s.first.share);
    var a2 := Awards(s.middle.winners, s.middle.share);
    var a3 := Awards(s.last.winners, s.last.share);
    AwardedToAppend(a1 + a2, a3, n);
    AwardedToAppend(a1, a2, n);
    AwardedToAwards(s.first.winners, s.first.share, n);
    AwardedToAwards(s.middle.winners, s.middle.share, n);
    AwardedToAwards(s.last.winners, s.last.share, n);
  }

  /** The sum of the per-person prizes. */
  function TotalPrizes(ps: seq<PersonPrize>): real {
    if ps == [] then 0.0 else TotalPrizes(ps[..|ps| - 1]) + ps[|ps| - 1].prize
  }

  lemma {:induction false} TotalPrizesOfListing(ps: seq<PersonPrize>, t: Tally)
    requires forall k :: k in t.order ==> k in t.totals
    requires |ps| == |t.order|
    requires forall i :: 0 <= i < |ps| ==> ps[i].prize == t.totals[t.order[i]]
    ensures TotalPrizes(ps) == SumOver(t.order, t.totals)
  {
    if ps != [] {
      TotalPrizesOfListing(ps[..|ps| - 1], Tally(t.order[..|t.order| - 1], t.totals));
    }
  }

  /** The per-person totals of a report add up to everything the front end
      credited. */
  lemma PerPersonAddsUp(fe: FrontEnd, tickets: seq<Ticket>, c: Config, winning: string, s: Settlement)
    requires IsSettlement(fe, tickets, c, winning, s)
    ensures TotalPrizes(s.perPerson) == CreditedSum(fe, AllAwards(s))
  {
    var all := AllAwards(s);
    var t := TallyFrom(fe, EmptyTally, all);
    TallyMatchesReference(fe, all);
    TallyConserves(fe, all);
    TotalPrizesOfListing(s.perPerson, t);
  }

  /** In the web app the per-person totals add up to the pools of the windows
      that have winners: a pool without winners is not paid out to anyone. */
  lemma FlaskPaysClaimedPools(tickets: seq<Ticket>, c: Config, winning: string, s: Settlement)
    requires IsSettlement(Flask, tickets, c, winning, s)
    ensures TotalPrizes(s.perPerson)
         == (if s.first.winners == [] then 0.0 else s.first.pool)
          + (if s.middle.winners == [] then 0.0 else s.middle.pool)
          + (if s.last.winners == [] then 0.0 else s.last.pool)
  {
    PerPersonAddsUp(Flask, tickets, c, winning, s);
    var a1 := Awards(s.first.winners, s.first.share);
    var a2 := Awards(s.middle.winners, s.middle.share);
    var a3 := Awards(s.last.winners, s.last.share);
    CreditedSumAppend(Flask, a1 + a2, a3);
    CreditedSumAppend(Flask, a1, a2);
    FlaskWindowPaysPool(s.first.winners, s.first.pool);
    FlaskWindowPaysPool(s.middle.winners, s.middle.pool);
    FlaskWindowPaysPool(s.last.winners, s.last.pool);
  }

  // ---------------------------------------------------------------------------
  // Properties: the report as a whole
  // ---------------------------------------------------------------------------

  /** Settling the same draw over the same tickets twice gives the same report. */
  lemma SettlementDeterministic(fe: FrontEnd, tickets: seq<Ticket>, c: Config, winning: string,
                                s1: Settlement, s2: Settlement)
    requires IsSettlement(fe, tickets, c, winning, s1)
    requires IsSettlement(fe, tickets, c, winning, s2)
    ensures s1 == s2
  {
    assert AllAwards(s1) == AllAwards(s2);
    assert s1.perPerson == s2.perPerson;
  }

  /** The per-person list names each credited winner once and nobody else: the
      GUI leaves out absent and empty names, the web app lists even `None`. */
  lemma ReportedNames(fe: FrontEnd, awards: seq<Award>, ps: seq<PersonPrize>)
    requires ReportsPerPerson(fe, awards, ps)
    ensures forall i, j :: 0 <= i < j < |ps| ==> ps[i].name != ps[j].name
    ensures forall n :: Lists(ps, n) <==> Credited(fe, n) && Won(awards, n)
  {
    ReportedNamesDistinct(fe, awards, ps);
    forall n
      ensures Lists(ps, n) <==> Credited(fe, n) && Won(awards, n)
    {
      ReportedName(fe, awards, ps, n);
    }
  }

  /** Some entry of `ps` carries the name `n`. */
  predicate Lists(ps: seq<PersonPrize>, n: Option<string>) {
    exists i :: 0 <= i < |ps| && ps[i].name == n
  }

  /** Some award of `awards` goes to the name `n`. */
  predicate Won(awards: seq<Award>, n: Option<string>) {
    exists j :: 0 <= j < |awards| && awards[j].name == n
  }

  /** No name is listed twice. */
  lemma ReportedNamesDistinct(fe: FrontEnd, awards: seq<Award>, ps: seq<PersonPrize>)
    requires ReportsPerPerson(fe, awards, ps)
    ensures forall i, j :: 0 <= i < j < |ps| ==> ps[i].name != ps[j].name
  {
    var names := FirstSeen(CreditedNames(fe, awards));
    FirstSeenProperties(CreditedNames(fe, awards));
    forall i, j | 0 <= i < j < |ps|
      ensures ps[i].name != ps[j].name
    {
      assert ps[i].name == names[i] && ps[j].name == names[j];
    }
  }

  /** A name is listed exactly when it is credited and won something. */
  lemma ReportedName(fe: FrontEnd, awards: seq<Award>, ps: seq<PersonPrize>, n: Option<string>)
    requires ReportsPerPerson(fe, awards, ps)
    ensures Lists(ps, n) <==> Credited(fe, n) && Won(awards, n)
  {
    var names := FirstSeen(CreditedNames(fe, awards));
    FirstSeenProperties(CreditedNames(fe, awards));
    CreditedNamesMembers(fe, awards, n);
    assert n in names <==> n in CreditedNames(fe, awards);
    if n in names {
      var i :| 0 <= i < |names| && names[i] == n;
      assert ps[i].name == n;
    }
    if Lists(ps, n) {
      var i :| 0 <= i < |ps| && ps[i].name == n;
      assert names[i] == n;
    }
  }

  lemma OneAward(fe: FrontEnd, a: Award)
    ensures CreditedNames(fe, [a]) == if Credited(fe, a.name) then [a.name] else []
    ensures AwardedTo([a], a.name) == a.amount
  {
    assert [a][..0] == [];
  }

  lemma FirstSeenOfRepeats<T>(x: T)
    ensures FirstSeen([x]) == [x]
    ensures FirstSeen([x, x]) == [x]
  {
    assert [x][..0] == [];
    assert [x, x][..1] == [x];
  }

  /** The per-person list of a single award. */
  lemma PerPersonOfOneAward(fe: FrontEnd, a: Award, ps: seq<PersonPrize>)
    requires ReportsPerPerson(fe, [a], ps)
    ensures ps == if Credited(fe, a.name) then [PersonPrize(a.name, a.amount)] else []
  {
    OneAward(fe, a);
    FirstSeenOfRepeats(a.name);
    if Credited(fe, a.name) {
      assert ps[0] == PersonPrize(a.name, a.amount);
      assert ps == [ps[0]];
    }
  }

  /** The per-person list of two awards to the same name: one entry with both. */
  lemma PerPersonOfTwoAwards(fe: FrontEnd, a: Award, b: Award, ps: seq<PersonPrize>)
    requires a.name == b.name
    requires ReportsPerPerson(fe, [a, b], ps)
    ensures ps == if Credited(fe, a.name) then [PersonPrize(a.name, a.amount + b.amount)] else []
  {
    var all := [a, b];
    assert all[..1] == [a];
    OneAward(fe, a);
    FirstSeenOfRepeats(a.name);
    assert AwardedTo(all, a.name) == a.amount + b.amount;
    if Credited(fe, a.name) {
      assert CreditedNames(fe, all) == [a.name, a.name];
      assert ps[0] == PersonPrize(a.name, a.amount + b.amount);
      assert ps == [ps[0]];
    } else {
      assert CreditedNames(fe, all) == [];
    }
  }

  /** A ticket that wins two windows is credited once per window: its holder's
      total holds both pools. */
  lemma TwoWindowsCountTwice(fe: FrontEnd, tickets: seq<Ticket>, c: Config, winning: string,
                             s: Settlement, t: Ticket)
    requires IsSettlement(fe, tickets, c, winning, s)
    requires s.first.winners == [] && s.middle.winners == [t] && s.last.winners == [t]
    ensures s.perPerson == if Credited(fe, t.holder)
                           then [PersonPrize(t.holder, s.middle.pool + s.last.pool)] else []
  {
    SameTicketTwice(fe, s, t);
    assert s.middle.share == s.middle.pool && s.last.share == s.last.pool;
  }

  lemma SameTicketTwice(fe: FrontEnd, s: Settlement, t: Ticket)
    requires ReportsPerPerson(fe, AllAwards(s), s.perPerson)
    requires s.first.winners == [] && s.middle.winners == [t] && s.last.winners == [t]
    ensures s.perPerson == if Credited(fe, t.holder)
                           then [PersonPrize(t.holder, s.middle.share + s.last.share)] else []
  {
    var a, b := Award(t.holder, s.middle.share), Award(t.holder, s.last.share);
    assert AllAwards(s) == [a, b];
    PerPersonOfTwoAwards(fe, a, b, s.perPerson);
  }

  lemma WinnersOfOne(fe: FrontEnd, t: Ticket, w: string)
    ensures Winners(fe, [t], w) == if Wins(fe, t, w) then [t] else []
  {
    assert [t][..0] == [];
  }

  /** With the default configuration the book is worth 10000 and the three
      pools are 2500, 1000 and 4000. */
  lemma DefaultPools()
    ensures ExpectedRevenue(DefaultConfig) == 10000.0
    ensures Pool(DefaultConfig, DefaultConfig.pctFirst) == 2500.0
    ensures Pool(DefaultConfig, DefaultConfig.pctMiddle) == 1000.0
    ensures Pool(DefaultConfig, DefaultConfig.pctLast) == 4000.0
  {
  }

  /** A report whose only winner is one ticket in the first window credits that
      ticket's holder the first window's share, and nobody else. */
  lemma SoleFirstWinner(fe: FrontEnd, s: Settlement, t: Ticket)
    requires s.first.winners == [t] && s.middle.winners == [] && s.last.winners == []
    requires ReportsPerPerson(fe, AllAwards(s), s.perPerson)
    ensures s.perPerson == if Credited(fe, t.holder) then [PersonPrize(t.holder, s.first.share)] else []
  {
    var a := Award(t.holder, s.first.share);
    var all := AllAwards(s);
    assert all == [a] by {
      assert Awards(s.first.winners, s.first.share) == [a];
      assert Awards(s.middle.winners, s.middle.share) == [];
      assert Awards(s.last.winners, s.last.share) == [];
    }
    PerPersonOfOneAward(fe, a, s.perPerson);
  }

  /** The three windows of the draw 0712 and the numbers they spell. */
  lemma WindowsOfDraw()
    ensures Slice("0712", 0, 2) == "07" && Slice("0712", 1, 3) == "71" && Slice("0712", 2, 4) == "12"
    ensures DecimalValue("07") == 7 && DecimalValue("71") == 71 && DecimalValue("12") == 12
  {
    TwoDigitValue("07");
    TwoDigitValue("71");
    TwoDigitValue("12");
  }

  /** A book in which only ticket 7 is paid, held by Ana. */
  ghost predicate OnlySevenPaid(ts: seq<Ticket>, b: nat) {
    && IsFullBook(ts, b)
    && ts[7] == Ticket(b, 7, Paid, Some("Ana"))
    && forall i :: 0 <= i < |ts| && i != 7 ==> ts[i].state != Paid
  }

  /** On the web, draw 0712 over that book: ticket 7 wins the first window
      ("07"), nobody wins "71" or "12". */
  lemma TicketSevenWebWindows(ts: seq<Ticket>, b: nat)
    requires OnlySevenPaid(ts, b)
    ensures Winners(Flask, ts, Slice("0712", 0, 2)) == [ts[7]]
    ensures Winners(Flask, ts, Slice("0712", 1, 3)) == []
    ensures Winners(Flask, ts, Slice("0712", 2, 4)) == []
  {
    WindowsOfDraw();
    WinnersOfFullBook(Flask, ts, b, "07");
    WinnersOfFullBook(Flask, ts, b, "71");
    WinnersOfFullBook(Flask, ts, b, "12");
  }

  /** In the GUI, draw 0712 over that book: ticket 7 prints as "7" and does not
      begin with "07", so no window has a winner. */
  lemma TicketSevenGuiWindows(ts: seq<Ticket>, b: nat)
    requires OnlySevenPaid(ts, b)
    ensures Winners(Flet, ts, Slice("0712", 0, 2)) == []
    ensures Winners(Flet, ts, Slice("0712", 1, 3)) == []
    ensures Winners(Flet, ts, Slice("0712", 2, 4)) == []
  {
    WindowsOfDraw();
    WinnersOfFullBook(Flet, ts, b, "07");
    WinnersOfFullBook(Flet, ts, b, "71");
    WinnersOfFullBook(Flet, ts, b, "12");
  }

  lemma TicketSevenWebWinners(ts: seq<Ticket>, b: nat, s: Settlement)
    requires OnlySevenPaid(ts, b)
    requires IsSettlement(Flask, ts, DefaultConfig, "0712", s)
    ensures s.first.winners == [ts[7]]
    ensures s.middle.winners == [] && s.last.winners == []
  {
    TicketSevenWebWindows(ts, b);
  }

  /** The sole winner of the first window under the default configuration
      receives its whole pool of 2500. */
  lemma TicketSevenWebShare(r: WindowResult)
    requires r.share == Share(Pool(DefaultConfig, DefaultConfig.pctFirst), |r.winners|)
    requires |r.winners| == 1
    ensures r.share == 2500.0
  {
    DefaultPools();
  }

  /** A worked example: a book as created in which only ticket 7 is paid, held
      by Ana; the draw is 0712 and the configuration is the default one. The web
      app pays Ana the whole first-window pool of 2500. */
  lemma TicketSevenOnTheWeb(ts: seq<Ticket>, b: nat, s: Settlement)
    requires OnlySevenPaid(ts, b)
    requires IsSettlement(Flask, ts, DefaultConfig, "0712", s)
    ensures s.first.winners == [ts[7]]
    ensures s.perPerson == [PersonPrize(Some("Ana"), 2500.0)]
  {
    TicketSevenWebWinners(ts, b, s);
    TicketSevenWebShare(s.first);
    SoleFirstWinner(Flask, s, ts[7]);
  }

  /** The same book and draw in the GUI: nobody wins anything. */
  lemma TicketSevenInTheGui(ts: seq<Ticket>, b: nat, g: Settlement)
    requires OnlySevenPaid(ts, b)
    requires IsSettlement(Flet, ts, DefaultConfig, "0712", g)
    ensures g.first.winners == [] && g.middle.winners == [] && g.last.winners == []
    ensures g.perPerson == []
  {
    TicketSevenGuiWindows(ts, b);
    assert AllAwards(g) == [];
  }
}
