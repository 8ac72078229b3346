/** The per-person prize dictionary `premios_persona` that draw settlement fills
    through `agregar_premio`, together with reference definitions of what it
    ends up holding: the names in first-seen order and the sum each one won. */
module Ledger {
  import opened Domain

  /** One call of `agregar_premio`: a winner's name and the amount credited. */
  datatype Award = Award(name: Option<string>, amount: real)

  /** A dictionary as Python keeps it: its keys in insertion order, and the
      value of each key. */
  datatype Tally = Tally(order: seq<Option<string>>, totals: map<Option<string>, real>)

  /** One entry of the final per-person list `{'nombre': k, 'premio': v}`. */
  datatype PersonPrize = PersonPrize(name: Option<string>, prize: real)

  const EmptyTally := Tally([], map[])

  /** Whether `agregar_premio` records a prize for this name. The GUI skips an
      absent or empty name (`if nombre:`); the web app records every key, the
      absent name `None` included. */
  predicate Credited(fe: FrontEnd, name: Option<string>) {
    match fe
    case Flet => name.Some? && name.value != ""
    case Flask => true
  }

  /** `agregar_premio(nombre, premio)`: add to an existing key, or insert a new
      key at the end of the order. */
  function AddPrize(fe: FrontEnd, t: Tally, a: Award): Tally {
    if !Credited(fe, a.name) then t
    else if a.name in t.totals then t.(totals := t.totals[a.name := t.totals[a.name] + a.amount])
    else Tally(t.order + [a.name], t.totals[a.name := a.amount])
  }

  /** What one call of `agregar_premio` does to the dictionary: a skipped name
      changes nothing; a recorded name's value grows by the amount, from 0 when
      the name is new, and only then is it appended to the order; every other
      key keeps its value. */
  lemma AddPrizeEffect(fe: FrontEnd, t: Tally, a: Award)
    ensures !Credited(fe, a.name) ==> AddPrize(fe, t, a) == t
    ensures Credited(fe, a.name) ==>
              && a.name in AddPrize(fe, t, a).totals
              && AddPrize(fe, t, a).totals[a.name]
                 == (if a.name in t.totals then t.totals[a.name] else 0.0) + a.amount
    ensures AddPrize(fe, t, a).order
         == if Credited(fe, a.name) && a.name !in t.totals then t.order + [a.name] else t.order
    ensures forall k :: k in t.totals && k != a.name ==>
              k in AddPrize(fe, t, a).totals && AddPrize(fe, t, a).totals[k] == t.totals[k]
  {
  }

  /** The dictionary after crediting `awards` one after another, starting from `t`. */
  function TallyFrom(fe: FrontEnd, t: Tally, awards: seq<Award>): Tally {
    if awards == [] then t
    else AddPrize(fe, TallyFrom(fe, t, awards[..|awards| - 1]), awards[|awards| - 1])
  }

  /** The per-person list built from the dictionary, in key order. */
  function Listing(t: Tally): (r: seq<PersonPrize>)
    requires forall k :: k in t.order ==> k in t.totals
    ensures |r| == |t.order|
    ensures forall i :: 0 <= i < |r| ==> r[i] == PersonPrize(t.order[i], t.totals[t.order[i]])
  {
    seq(|t.order|, i requires 0 <= i < |t.order| => PersonPrize(t.order[i], t.totals[t.order[i]]))
  }

  // ---------------------------------------------------------------------------
  // Reference definitions
  // ---------------------------------------------------------------------------

  predicate Distinct<T(==)>(xs: seq<T>) {
    forall i, j :: 0 <= i < j < |xs| ==> xs[i] != xs[j]
  }

  /** The elements of `xs` without repetitions, each at its first occurrence. */
  function FirstSeen<T(==)>(xs: seq<T>): seq<T> {
    if xs == [] then []
    else
      var r := FirstSeen(xs[..|xs| - 1]);
      if xs[|xs| - 1] in r then r else r + [xs[|xs| - 1]]
  }

  /** The names, in order, of the awards the front end records. */
  function CreditedNames(fe: FrontEnd, awards: seq<Award>): seq<Option<string>> {
    if awards == [] then []
    else
      var last := awards[|awards| - 1];
      CreditedNames(fe, awards[..|awards| - 1]) + (if Credited(fe, last.name) then [last.name] else [])
  }

  /** The sum of all amounts awarded to `name`. */
  function AwardedTo(awards: seq<Award>, name: Option<string>): real {
    if awards == [] then 0.0
    else
      var last := awards[|awards| - 1];
      AwardedTo(awards[..|awards| - 1], name) + (if last.name == name then last.amount else 0.0)
  }

  /** The sum of all amounts the front end records. */
  function CreditedSum(fe: FrontEnd, awards: seq<Award>): real {
    if awards == [] then 0.0
    else
      var last := awards[|awards| - 1];
      CreditedSum(fe, awards[..|awards| - 1]) + (if Credited(fe, last.name) then last.amount else 0.0)
  }

  /** The sum of the values of the keys in `order`. */
  function SumOver(order: seq<Option<string>>, totals: map<Option<string>, real>): real
    requires forall k :: k in order ==> k in totals
  {
    if order == [] then 0.0 else SumOver(order[..|order| - 1], totals) + totals[order[|order| - 1]]
  }

  // ---------------------------------------------------------------------------
  // Properties of the reference definitions
  // ---------------------------------------------------------------------------

  /** `FirstSeen` keeps every element, once. */
  lemma {:induction false} FirstSeenProperties<T>(xs: seq<T>)
    ensures forall x :: x in FirstSeen(xs) <==> x in xs
    ensures Distinct(FirstSeen(xs))
  {
    if xs != [] {
      var init := xs[..|xs| - 1];
      FirstSeenProperties(init);
      assert xs == init + [xs[|xs| - 1]];
    }
  }

  /** A name is among the credited names exactly when it is credited and some
      award goes to it. */
  lemma {:induction false} CreditedNamesMembers(fe: FrontEnd, awards: seq<Award>, name: Option<string>)
    ensures name in CreditedNames(fe, awards) <==>
      Credited(fe, name) && exists i :: 0 <= i < |awards| && awards[i].name == name
  {
    if awards != [] {
      var init := awards[..|awards| - 1];
      CreditedNamesMembers(fe, init, name);
      if exists i :: 0 <= i < |init| && init[i].name == name {
        var i :| 0 <= i < |init| && init[i].name == name;
        assert awards[i].name == name;
      }
      if exists i :: 0 <= i < |awards| && awards[i].name == name {
        var i :| 0 <= i < |awards| && awards[i].name == name;
        if i < |init| {
          assert init[i].name == name;
        }
      }
    }
  }

  /** Crediting one list after another is crediting their concatenation. */
  lemma {:induction false} TallyFromAppend(fe: FrontEnd, t: Tally, xs: seq<Award>, ys: seq<Award>)
    ensures TallyFrom(fe, t, xs + ys) == TallyFrom(fe, TallyFrom(fe, t, xs), ys)
  {
    if ys != [] {
      var zs, init, last := xs + ys, ys[..|ys| - 1], ys[|ys| - 1];
      assert zs[..|zs| - 1] == xs + init && zs[|zs| - 1] == last;
      TallyFromAppend(fe, t, xs, init);
      assert TallyFrom(fe, t, zs) == AddPrize(fe, TallyFrom(fe, t, xs + init), last);
    } else {
      assert xs + ys == xs;
    }
  }

  /** What the dictionary holds after crediting `awards` from empty: every key is
      in the order once, the order is the first-seen order of the credited names,
      every key is a credited name, each key's value is everything awarded to that name, and a credited name
      that is not a key was awarded nothing. */
  lemma {:induction false} TallyMatchesReference(fe: FrontEnd, awards: seq<Award>)
    ensures forall k :: k in TallyFrom(fe, EmptyTally, awards).totals <==> k in TallyFrom(fe, EmptyTally, awards).order
    ensures TallyFrom(fe, EmptyTally, awards).order == FirstSeen(CreditedNames(fe, awards))
    ensures forall k :: k in TallyFrom(fe, EmptyTally, awards).totals ==>
      Credited(fe, k) && TallyFrom(fe, EmptyTally, awards).totals[k] == AwardedTo(awards, k)
    ensures forall k :: Credited(fe, k) && k !in TallyFrom(fe, EmptyTally, awards).totals ==>
      AwardedTo(awards, k) == 0.0
  {
    if awards != [] {
      var init := awards[..|awards| - 1];
      var a := awards[|awards| - 1];
      TallyMatchesReference(fe, init);
      var t := TallyFrom(fe, EmptyTally, init);
      assert TallyFrom(fe, EmptyTally, awards) == AddPrize(fe, t, a);
      var names := CreditedNames(fe, init);
      FirstSeenProperties(names);
      if Credited(fe, a.name) {
        var xs := names + [a.name];
        assert CreditedNames(fe, awards) == xs;
        assert xs[..|xs| - 1] == names;
        if a.name in t.totals {
          assert a.name in FirstSeen(names);
          assert FirstSeen(xs) == FirstSeen(names);
        } else {
          assert a.name !in FirstSeen(names);
          assert FirstSeen(xs) == FirstSeen(names) + [a.name];
        }
      } else {
        assert CreditedNames(fe, awards) == names;
      }
    }
  }

  /** Adding to a key that appears once in `order` raises the sum by that amount. */
  lemma {:induction false} SumOverAdd(order: seq<Option<string>>, totals: map<Option<string>, real>,
                                       k: Option<string>, v: real)
    requires forall x :: x in order ==> x in totals
    requires Distinct(order)
    requires k in order
    ensures SumOver(order, totals[k := totals[k] + v]) == SumOver(order, totals) + v
  {
    var init := order[..|order| - 1];
    var last := order[|order| - 1];
    if last == k {
      assert k !in init by {
        forall i | 0 <= i < |init| ensures init[i] != k {
          assert order[i] != order[|order| - 1];
        }
      }
      SumOverOther(init, totals, k, totals[k] + v);
    } else {
      assert k in init by {
        var i :| 0 <= i < |order| && order[i] == k;
        assert i < |init| && init[i] == k;
      }
      SumOverAdd(init, totals, k, v);
    }
  }

  /** Changing the value of a key that is not in `order` leaves the sum alone. */
  lemma {:induction false} SumOverOther(order: seq<Option<string>>, totals: map<Option<string>, real>,
                                         k: Option<string>, v: real)
    requires forall x :: x in order ==> x in totals
    requires k !in order
    ensures SumOver(order, totals[k := v]) == SumOver(order, totals)
  {
    if order != [] {
      SumOverOther(order[..|order| - 1], totals, k, v);
    }
  }

  /** The dictionary invariant: the keys are exactly the entries of the order,
      and no key is listed twice. */
  ghost predicate WellFormed(t: Tally) {
    (forall k :: k in t.order <==> k in t.totals) && Distinct(t.order)
  }

  /** `agregar_premio` keeps the invariant. */
  lemma AddPrizeWellFormed(fe: FrontEnd, t: Tally, a: Award)
    requires WellFormed(t)
    ensures WellFormed(AddPrize(fe, t, a))
  {
    if Credited(fe, a.name) && a.name !in t.totals {
      var o := t.order + [a.name];
      forall i, j | 0 <= i < j < |o|
        ensures o[i] != o[j]
      {
        if j == |t.order| {
          assert o[i] == t.order[i];
        } else {
          assert o[i] == t.order[i] && o[j] == t.order[j];
        }
      }
    }
  }

  /** `agregar_premio` keeps the invariant and raises the sum of the values by
      the amount it records. */
  lemma AddPrizeSum(fe: FrontEnd, t: Tally, a: Award)
    requires WellFormed(t)
    ensures WellFormed(AddPrize(fe, t, a))
    ensures SumOver(AddPrize(fe, t, a).order, AddPrize(fe, t, a).totals)
         == SumOver(t.order, t.totals) + (if Credited(fe, a.name) then a.amount else 0.0)
  {
    AddPrizeWellFormed(fe, t, a);
    if Credited(fe, a.name) {
      if a.name in t.totals {
        SumOverAdd(t.order, t.totals, a.name, a.amount);
      } else {
        SumOverOther(t.order, t.totals, a.name, a.amount);
        var o := t.order + [a.name];
        assert o[..|o| - 1] == t.order;
      }
    }
  }

  /** Nothing credited is lost or made up: the values of the dictionary add up to
      the sum of the amounts credited. */
  lemma {:induction false} TallyConserves(fe: FrontEnd, awards: seq<Award>)
    ensures WellFormed(TallyFrom(fe, EmptyTally, awards))
    ensures SumOver(TallyFrom(fe, EmptyTally, awards).order, TallyFrom(fe, EmptyTally, awards).totals)
         == CreditedSum(fe, awards)
  {
    if awards != [] {
      var init := awards[..|awards| - 1];
      var a := awards[|awards| - 1];
      TallyConserves(fe, init);
      AddPrizeSum(fe, TallyFrom(fe, EmptyTally, init), a);
    }
  }
}
