# Raffle books and draw settlement

This project models the raffle ("rifa") manager that exists twice over one
SQLite database, `rifas.db`: once as a Flet app, served to a browser
(`rifa_app.py`), and once as a Flask web app (`app.py`). Below, "the GUI" means
the Flet app. The database has four tables:

- books ("talonarios") of 100 tickets ("números") each;
- the tickets, each with a state and a holder's name;
- draws ("sorteos");
- a one-row configuration with the ticket price and three prize percentages.

The model covers the logic under both user interfaces, with the database
replaced by an in-memory store:

- creating a book with its 100 tickets;
- the ticket state machine;
- updating the configuration and deriving the book totals from it;
- checking that a winning number is four digits;
- settling a draw.

A draw is settled in five steps:

1. The winning number gives three two-character windows: its first, middle and
   last two digits.
2. Each window gets a pool, which is a percentage of the revenue of a fully sold
   book.
3. The winners of a window are the paid tickets whose number matches it.
4. The pool is split equally among those winners.
5. The shares are summed per person, keeping the order in which each person is
   first seen.

The two front ends differ in two places. `Prizes.Matches` captures one and
`Ledger.Credited` the other:

- **Matching.** The GUI compares the unpadded text of the ticket number with
  `LIKE 'ab%'`, so tickets 0 to 9 never win. The web app zero-pads the number to
  two digits and compares for equality, so ticket 7 wins `"07"`.
- **Crediting.** The GUI skips winners with no name or an empty name. The web
  app credits every winner, including the absent name `None`.

Settlement is written once (`Prizes.Settle`) and takes the front end as a
parameter.

Modules:

- `Domain`: the records, the shared ticket transition, and the book totals.
- `Digits`: `str(n)`, `'%02d'`, Python slicing and the four-digit check.
- `Ledger`: the `premios_persona` dictionary filled by `agregar_premio`, with
  reference definitions of what it should hold.
- `Prizes`: matching, winners, pools, shares and the settlement report.
- `Store`: the database as a class with reads and updates in place.
- `FletApp` and `FlaskApp`: the parts where the two front ends differ (ticket
  actions and the book view).

Conventions:

- Row ids are 1-based positions in their table.
- Money is exact `real` arithmetic.
- Inputs that come from widgets or form fields are parameters. A form field that
  was not posted is `None`.

## Model

| member | source | states |
|---|---|---|
| Domain.Transition | rifa_app.py:113-124 | no action moves a ticket to another book or renumbers it, and an action other than the four names changes nothing; the same state machine is `app.py:116-127`, and the lemmas below give each action's effect |
| Domain.AssignFromAnyState | rifa_app.py:113-115 | `asignar` makes any ticket assigned to the given name, keeping its book and number |
| Domain.AssignAndPayFromAnyState | rifa_app.py:116-118 | `asignar_pagar` makes any ticket paid with the given name |
| Domain.PayOnlyFromAssigned | rifa_app.py:119-121 | `pagar` turns an assigned ticket into a paid one with the same holder and leaves an available or paid ticket unchanged |
| Domain.UnassignClears | rifa_app.py:122-124 | `desasignar` makes a ticket available with no holder |
| Domain.TransitionIdempotent | app.py:116-128 | repeating the same action with the same name changes nothing more |
| Domain.PaidAfterTransition | app.py:116-128 | a ticket ends up paid exactly when the action pays it outright, pays an assigned ticket, or leaves a paid ticket paid |
| Domain.PaidCount | rifa_app.py:206 | the number of paid tickets is at most the number of tickets; it equals it exactly when all are paid, and is 0 exactly when none is |
| Domain.BookTotals | app.py:91-94 | expected = 100 * price, collected = paid tickets * price, remaining = their difference; what this guarantees is stated by `Domain.TotalsBounded` and `Domain.RemainingIsUnpaidPrice` |
| Domain.TotalsBounded | app.py:91-94 | with a non-negative price and at most 100 tickets, 0 <= collected <= expected and remaining >= 0 |
| Domain.RemainingIsUnpaidPrice | rifa_app.py:205-208 | remaining = (100 - paid tickets) * price |
| Digits.DigitChar | rifa_app.py:388 | the character for a digit below 10 is a digit character with that value |
| Digits.DecimalString | rifa_app.py:388 | `str(n)` is a non-empty string of digits |
| Digits.DecimalRoundTrip | rifa_app.py:388 | reading `str(n)` back in base ten gives `n` |
| Digits.ZeroPadded | app.py:188 | `'%02d' % n` is a string of digits |
| Digits.ZeroPaddedRoundTrip | app.py:188 | reading `'%02d' % n` back in base ten gives `n` |
| Digits.DecimalValueInjective | app.py:188 | two digit strings of the same length and value are equal |
| Digits.DecimalStringLength | rifa_app.py:388 | below 100, `str(n)` has one character for n < 10 and two otherwise |
| Digits.ZeroPaddedLength | app.py:188 | below 100, `'%02d' % n` has exactly two characters |
| Digits.Slice | rifa_app.py:381-383 | Python's `s[i:j]`: its length is given by the clipped bounds, and its characters are those of `s` from `i` on |
| Digits.IsWinningNumber | rifa_app.py:346 | `len(num) == 4 and num.isdigit()` (also `app.py:156`); `Digits.WindowsOfWinningNumber` and `Digits.WindowsAreTwoDigits` give what a number passing it guarantees |
| Digits.WindowsOfWinningNumber | rifa_app.py:381-383 | for a four-digit number, `[:2]`, `[1:3]` and `[2:]` are its first two, middle two and last two characters |
| Digits.WindowsAreTwoDigits | app.py:182-184 | each window of a four-digit number is a two-character digit string |
| Ledger.Credited | rifa_app.py:408 | the GUI records a prize only for a present, non-empty name; the web app (`app.py:206-210`) records every name, `None` included; `Prizes.ReportedNames` gives what this means for the report |
| Ledger.AddPrize | app.py:206-210 | the web app's `agregar_premio`, the GUI's being `rifa_app.py:407-412` with `Ledger.Credited` as the only difference; `Ledger.AddPrizeEffect` states what one call does and `Ledger.AddPrizeSum` that it keeps the dictionary well formed |
| Ledger.AddPrizeEffect | rifa_app.py:407-412 | what one call of `agregar_premio` does: a skipped name changes nothing; a recorded name's value grows by the amount, from 0 when the name is new, and only a new name is appended to the order; every other key keeps its value |
| Ledger.TallyFrom | rifa_app.py:414-424 | the dictionary after the crediting loops, as a fold of `agregar_premio`; `Ledger.TallyMatchesReference` states what it holds |
| Ledger.TallyFromAppend | rifa_app.py:414-424 | running the three crediting loops one after another is the same as crediting all their awards in sequence |
| Ledger.TallyMatchesReference | rifa_app.py:404-424 | after crediting, the keys are the order's entries; the order is the credited names in first-seen order; each key's value is everything awarded to that name; a credited name that is not a key was awarded nothing |
| Ledger.AddPrizeSum | rifa_app.py:407-412 | `agregar_premio` keeps the dictionary well formed and raises the sum of its values by the recorded amount (zero for a skipped name) |
| Ledger.TallyConserves | app.py:204-222 | the dictionary's values add up to the sum of all credited amounts |
| Prizes.ListingReports | app.py:224 | the list built from the dictionary's items names every credited winner once, in first-seen order, with everything awarded to that name |
| Prizes.Matches | rifa_app.py:388 | the GUI's `LIKE 'ab%'` on the unpadded number, and the web app's two-digit comparison (`app.py:188`); `Prizes.MatchesBelowHundred` states which numbers match |
| Prizes.Winners | rifa_app.py:386-402 | at most as many winners as tickets; `Prizes.WinnersMembers` and `Prizes.WinnersOfFullBook` say which tickets they are |
| Prizes.WinnersMembers | rifa_app.py:386-402 | the winners of a window are exactly the tickets that are paid and match |
| Prizes.AwardedToAwards | rifa_app.py:414-416 | a window credits a name its share once for every winning ticket that name holds |
| Prizes.CreditWindow | rifa_app.py:414-424 | one crediting loop leaves the dictionary holding the fold of `agregar_premio` over the window's awards |
| Prizes.Settle | rifa_app.py:376-424 | the report holds the expected revenue, the three windows with their pools, winners and equal shares, and the per-person totals in first-seen order; the front end parameter selects the GUI rules here or the web app's rules at app.py:177-224 |
| Prizes.FletMatchIff | rifa_app.py:388 | in the GUI, a number below 100 matches a two-digit window exactly when it has two digits and spells the window |
| Prizes.FletSingleDigitsNeverMatch | rifa_app.py:386-390 | in the GUI, tickets 0 to 9 never match a two-character window |
| Prizes.FlaskMatchIff | app.py:188 | in the web app, a number below 100 matches a two-digit window exactly when the window's value is that number |
| Prizes.MatchRulesAgreeFromTen | app.py:186-190 | from 10 to 99 the GUI and web matching rules agree |
| Prizes.WinnersAppend | rifa_app.py:386-390 | the winners of two tables concatenated are the winners of each, in order |
| Prizes.MatchesBelowHundred | rifa_app.py:386-402 | below 100, a front end's match is equality with the window's value, plus the two-digit condition in the GUI |
| Prizes.WinnersOfFullBook | rifa_app.py:386-402 | in a book as created, a window has one winner at most: the ticket the window spells, if it is paid (and has two digits, in the GUI) |
| Prizes.ExpectedRevenue | rifa_app.py:376 | the revenue of a sold-out book, `100 * price`; `Prizes.DefaultPools` gives its default value |
| Prizes.Pool | rifa_app.py:377-379 | each pool `100 * price * pct / 100` equals `price * pct` |
| Prizes.Share | rifa_app.py:415 | with winners, the winners' equal shares add up to the pool; with none the share is 0 |
| Prizes.FlaskWindowPaysPool | app.py:212-222 | in the web app a window credits exactly its pool when it has winners, and nothing otherwise |
| Prizes.PersonTotal | rifa_app.py:404-424 | each listed person's prize is, summed over the three windows, the window's share times the number of that window's winning tickets the person holds; a ticket that wins several windows is credited in each |
| Prizes.PerPersonAddsUp | rifa_app.py:404-424 | the per-person totals add up to everything the front end credited |
| Prizes.FlaskPaysClaimedPools | app.py:204-224 | in the web app the per-person totals add up to the pools of the windows that have winners |
| Prizes.SettlementDeterministic | app.py:177-224 | a draw over the same tickets and configuration has one report |
| Prizes.ReportedNames | rifa_app.py:407-412 | the per-person list names each credited winner once and nobody else, so the GUI lists no absent or empty name, while the web app (app.py:206-210) lists every winner's name, `None` included |
| Prizes.PerPersonOfOneAward | app.py:224 | the list for a single award is its name with its amount, or empty when the name is not credited |
| Prizes.PerPersonOfTwoAwards | rifa_app.py:407-412 | two awards to the same name give one entry with their sum |
| Prizes.TwoWindowsCountTwice | rifa_app.py:414-424 | a report in which one ticket is the only winner of both the middle and the last window, and the first has none, lists that ticket's holder once with both pools (or nobody, when the name is not credited) |
| Prizes.SoleFirstWinner | app.py:212-214 | a report whose only winner is one ticket in the first window credits that holder the first share and nobody else |
| Prizes.DefaultPools | rifa_app.py:20-23 | with the default configuration the book is worth 10000 and the pools are 2500, 1000 and 4000 |
| Prizes.TicketSevenWebWindows | app.py:186-202 | in a book as created in which only ticket 7 is paid, the web app finds ticket 7 as the sole winner of "07" and no winner of "71" or "12" |
| Prizes.TicketSevenGuiWindows | rifa_app.py:386-402 | in the same book the GUI finds no winner of "07", "71" or "12" |
| Prizes.TicketSevenOnTheWeb | app.py:177-224 | in a book as created in which only ticket 7 is paid (held by Ana), with draw 0712 and the default configuration, the web app pays Ana 2500 |
| Prizes.TicketSevenInTheGui | rifa_app.py:376-424 | for the same book and draw the GUI has no winner in any window and pays nobody |
| Store.TicketsOf | rifa_app.py:201 | a book's tickets are a selection of the table, in table order; `Store.TicketsOfMembers` says which |
| Store.FreshBook | rifa_app.py:99-104 | `crear_talonario` inserts 100 ticket rows; `Store.FreshBookContents` gives their contents |
| Store.TicketsOfMembers | rifa_app.py:201 | a book's tickets are exactly the table's tickets with that book id |
| Store.FreshBookContents | rifa_app.py:99-104 | a new book's tickets are numbered 0 to 99 with no gap or repeat, all available, none with a holder |
| Store.Database.constructor | rifa_app.py:546-550 | the first start-up on a new database gives empty tables and a configuration row with the defaults 100/25/10/40, which satisfies the invariant; the web app does the same at `app.py:51-56` |
| Store.Database.CreateBook | rifa_app.py:94-106 | creating a book appends it, appends its 100 fresh tickets after the existing ones, changes nothing else, and keeps the invariant; the web app inserts the same rows (app.py:63-76) |
| Store.Database.CreateBookKeepsValid | rifa_app.py:94-106 | after a book is created the new book is full and every old book keeps its tickets |
| Store.Database.ApplyTransition | app.py:116-129 | the action replaces one ticket by its transition, changes nothing else, keeps the invariant, and reports the ticket's book |
| Store.Database.UpdateConfig | rifa_app.py:135-145 | the configuration holds the four given values, whether or not a row existed; nothing else changes; the web app's POST (app.py:134-140) overwrites the same four fields |
| Store.Database.ConductDraw | rifa_app.py:337-348 | an unknown book or a number that is not four digits records nothing; otherwise the draw is appended and its id returned; the web app (app.py:147-164) checks in the same order |
| Store.Database.SettleDraw | rifa_app.py:367-424 | an unknown draw gives no report (404 in the web app, app.py:170-172); a known draw always gets a report, which is the settlement of the draw's book, and each window has at most one winner |
| Store.AtMostOneWinner | rifa_app.py:386-402 | in a full book each window of a four-digit number has at most one winner |
| FletApp.ShownTotals | rifa_app.py:205-208 | with no configuration row the totals are zero; otherwise they are the book totals of the configuration (expected = 100 * price, collected = paid * price); remaining = expected - collected in both cases |
| FletApp.ApplyAction | rifa_app.py:108-127 | an unknown ticket gives nothing and changes nothing; otherwise the transition is applied and the ticket's book returned |
| FletApp.ViewBook | rifa_app.py:196-208 | an unknown book gives nothing; otherwise the shown totals of its tickets, bounded when the price is non-negative |
| FlaskApp.ApplyAction | app.py:105-130 | 404 for an unknown ticket, 400 for a missing or empty action and for an assignment without `nombre`, with no change; otherwise the transition is applied (unknown actions included) and the ticket's book returned |
| FlaskApp.ViewBook | app.py:80-94 | 404 for an unknown book; a known book always gets an answer, the book totals of its tickets, bounded when the price is non-negative |

## Left out

- The Flet views and navigation, the Flask routes, templates, redirects and flash messages are not modelled. Apart from the checks modelled above, the only logic they hold is the GUI's action menu, listed next.
- The GUI's state-dependent action menu is not modelled. `mostrar_acciones_numero` (`rifa_app.py:515-525`) offers `asignar` and `asignar_pagar` for an available ticket, `pagar` and `desasignar` for an assigned one, and only `desasignar` for a paid one. The web app offers no such restriction, so `Domain.Transition` accepts every action from every state. The grid's click handler (`rifa_app.py:236`) binds the ticket id when the handler is created but reads `estado` only when it runs, so as written each ticket's menu would follow the state of the last ticket drawn in the grid. That quirk is not modelled either.
- The GUI refuses to create a book with an empty name in its click handler, `home_view`. That check is part of the view and is not modelled.
- SQLAlchemy sessions, commits and the engine are replaced by in-memory tables. Book creation commits twice, but nothing runs in between in a sequential model.
- Form parsing is not modelled, apart from the absent `accion` and `nombre` fields. A missing `nombre` on book creation or a missing `numero_ganador` would be a 400 in the web app.
- `float(...)` parsing of the configuration fields is not modelled: the values arrive as numbers.
- IEEE floating point is not modelled: money is exact `real` arithmetic.
- `format_currency` is display formatting only and is not modelled.
- The `fecha` timestamp of a draw is clock input and is not modelled.
- SQL `LIKE` is modelled only as a prefix test on digit windows. Its wildcards and case folding do not matter once a draw has been validated as four digits.
- `CAST`, `format('%02d')` and `substr` are modelled by what they compute: `Digits.DecimalString`, `Digits.ZeroPadded` and `Digits.Slice`.
- Digit checks accept only ASCII `0`-`9`. Python's `str.isdigit()` also accepts other Unicode digits (for example `'٣'`).
- Prizes.Winners: the winner queries have no `ORDER BY`, and SQL promises no order without one. The model assumes the rows come in rowid order, the order of a full table scan in SQLite. Under the book invariant this is number order. Only the order of the per-person list depends on this assumption; each person's total does not.
- Store.Database.UpdateConfig: for the web app it is stated as always succeeding. `app.py` would fail without a configuration row, but start-up always creates one and nothing deletes it.
- Store.Database.constructor: it models only the first start-up on a new database. `rifa_app.py:46, 547-550` and `app.py:51-56` create only the tables and the configuration row that are missing, so a later start-up keeps the existing rows. The model treats those rows as the state the class already holds.
- FlaskApp.ViewBook: it requires the configuration row to exist. Without one, `app.py:89-91` reads `config.precio_boleta` from `None` and fails with an AttributeError (a 500). Start-up always creates the row and nothing deletes it.
- Store.Database.SettleDraw: it requires the configuration row to exist. `rifa_app.py:376` reads the row without a check, and start-up guarantees it.
