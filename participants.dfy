/**
 * The participant list of the registration form: the records it holds,
 * the pure transitions behind its add, remove and update handlers, the
 * derived total, and what those transitions preserve.
 *
 * Prices are whole reais (`int`); the form only ever shows them with two
 * decimals.
 */
module Participants {

  /** The ticket type chosen in the form's select: adult or child. */
  datatype TicketType = Adulto | Crianca

  datatype Participant = Participant(nome: string, telefone: string, tipo: TicketType, valor: int)

  /** One call of the update handler: the field named and the value written to it. */
  datatype Edit =
    | SetNome(nome: string)
    | SetTelefone(telefone: string)
    | SetTipo(tipo: TicketType)
    | SetValor(valor: int)

  /** The fixed price of a ticket type: 100 for an adult, 50 otherwise. */
  function PriceOf(t: TicketType): int
  {
    if t == Adulto then 100 else 50
  }

  /** The record the add handler appends and the form starts with. */
  const NewParticipant := Participant("", "", Adulto, 100)

  /** The list the form starts with. */
  const Initial := [NewParticipant]

  /** Every entry's price is the one its ticket type fixes. */
  ghost predicate PricesFromType(ps: seq<Participant>)
  {
    forall i :: 0 <= i < |ps| ==> ps[i].valor == PriceOf(ps[i].tipo)
  }

  // ---------------------------------------------------------------------
  // Derived total

  /** The sum of the prices, accumulated left to right as `reduce` does. */
  function Total(ps: seq<Participant>): int
  {
    if ps == [] then 0 else Total(ps[..|ps| - 1]) + ps[|ps| - 1].valor
  }

  /** The number of entries with ticket type `t`. */
  function CountOf(ps: seq<Participant>, t: TicketType): nat
  {
    if ps == [] then 0
    else CountOf(ps[..|ps| - 1], t) + (if ps[|ps| - 1].tipo == t then 1 else 0)
  }

  lemma {:induction false} TotalConcat(a: seq<Participant>, b: seq<Participant>)
    ensures Total(a + b) == Total(a) + Total(b)
    decreases |b|
  {
    if b == [] {
      assert a + b == a;
    } else {
      var b' := b[..|b| - 1];
      assert (a + b)[..|a + b| - 1] == a + b';
      TotalConcat(a, b');
    }
  }

  /** When every price comes from its ticket type, the total is 100 per
      adult plus 50 per child. */
  lemma {:induction false} TotalByType(ps: seq<Participant>)
    requires PricesFromType(ps)
    ensures Total(ps) == 100 * CountOf(ps, Adulto) + 50 * CountOf(ps, Crianca)
    decreases |ps|
  {
    if ps != [] {
      var init := ps[..|ps| - 1];
      assert PricesFromType(init) by {
        forall i | 0 <= i < |init| ensures init[i].valor == PriceOf(init[i].tipo) {
          assert init[i] == ps[i];
        }
      }
      TotalByType(init);
      assert ps[|ps| - 1].valor == PriceOf(ps[|ps| - 1].tipo);
    }
  }

  // ---------------------------------------------------------------------
  // add

  /** The add handler's new list: the old one with a default adult appended. */
  function Added(ps: seq<Participant>): seq<Participant>
  {
    ps + [NewParticipant]
  }

  /** Adding grows the list by one default adult, keeps every earlier entry
      in place, raises the total by 100 and keeps prices tied to types. */
  lemma AddedFacts(ps: seq<Participant>)
    ensures |Added(ps)| == |ps| + 1 && Added(ps)[|ps|] == NewParticipant
    ensures forall j :: 0 <= j < |ps| ==> Added(ps)[j] == ps[j]
    ensures Total(Added(ps)) == Total(ps) + 100
    ensures PricesFromType(ps) ==> PricesFromType(Added(ps))
  {
    assert Added(ps)[..|ps|] == ps;
  }

  // ---------------------------------------------------------------------
  // remove

  /** `ps.filter((_, i) => i !== index)`: the entries whose position is not
      `index`, in their original order. */
  function FilterPos(ps: seq<Participant>, index: int): seq<Participant>
    decreases |ps|
  {
    if ps == [] then []
    else if |ps| - 1 == index then FilterPos(ps[..|ps| - 1], index)
    else FilterPos(ps[..|ps| - 1], index) + [ps[|ps| - 1]]
  }

  /** The filter drops exactly the entry at an in-range `index` and keeps
      the rest in order; an out-of-range `index` (negative or too large)
      leaves the list as it is. */
  lemma {:induction false} FilterPosSlices(ps: seq<Participant>, index: int)
    ensures FilterPos(ps, index) == if 0 <= index < |ps| then ps[..index] + ps[index + 1..] else ps
    decreases |ps|
  {
    if ps != [] {
      var init, last := ps[..|ps| - 1], ps[|ps| - 1];
      assert ps == init + [last];
      FilterPosSlices(init, index);
      if 0 <= index < |ps| - 1 {
        assert FilterPos(ps, index) == (init[..index] + init[index + 1..]) + [last];
        assert init[..index] == ps[..index];
        assert init[index + 1..] + [last] == ps[index + 1..];
      } else if index == |ps| - 1 {
        assert FilterPos(ps, index) == init;
        assert ps[..index] == init && ps[index + 1..] == [];
      } else {
        assert FilterPos(ps, index) == init + [last];
      }
    }
  }

  /** The remove handler's new list: unchanged when at most one entry is
      left, otherwise filtered by position. */
  function Removed(ps: seq<Participant>, index: int): seq<Participant>
  {
    if |ps| <= 1 then ps else FilterPos(ps, index)
  }

  /** The total of a one-entry list is that entry's price. */
  lemma TotalSingle(p: Participant)
    ensures Total([p]) == p.valor
  {
    assert [p][..0] == [];
  }

  /** Deleting an in-range entry lowers the total by its price. */
  lemma DeleteAtTotal(ps: seq<Participant>, index: int)
    requires 0 <= index < |ps|
    ensures Total(ps[..index] + ps[index + 1..]) == Total(ps) - ps[index].valor
  {
    var front, back := ps[..index], ps[index + 1..];
    assert ps == (front + [ps[index]]) + back;
    TotalConcat(front, [ps[index]]);
    TotalConcat(front + [ps[index]], back);
    TotalConcat(front, back);
    TotalSingle(ps[index]);
  }

  /** Deleting an entry keeps prices tied to types. */
  lemma DeleteAtPrices(ps: seq<Participant>, index: int)
    requires 0 <= index < |ps| && PricesFromType(ps)
    ensures PricesFromType(ps[..index] + ps[index + 1..])
  {
    var r := ps[..index] + ps[index + 1..];
    forall j | 0 <= j < |r| ensures r[j].valor == PriceOf(r[j].tipo) {
      assert r[j] == if j < index then ps[j] else ps[j + 1];
    }
  }

  /** Removing never empties a non-empty list; it is a no-op on a single
      entry or an out-of-range index; otherwise it deletes exactly entry
      `index`, shortens the list by one and lowers the total by its price. */
  lemma RemovedFacts(ps: seq<Participant>, index: int)
    ensures |ps| >= 1 ==> |Removed(ps, index)| >= 1
    ensures |ps| <= 1 || index < 0 || index >= |ps| ==> Removed(ps, index) == ps
    ensures |ps| >= 2 && 0 <= index < |ps| ==>
      && Removed(ps, index) == ps[..index] + ps[index + 1..]
      && |Removed(ps, index)| == |ps| - 1
      && Total(Removed(ps, index)) == Total(ps) - ps[index].valor
    ensures PricesFromType(ps) ==> PricesFromType(Removed(ps, index))
  {
    FilterPosSlices(ps, index);
    if |ps| >= 2 && 0 <= index < |ps| {
      DeleteAtTotal(ps, index);
      if PricesFromType(ps) {
        DeleteAtPrices(ps, index);
      }
    }
  }

  // ---------------------------------------------------------------------
  // update

  /** One record after writing one field. Setting the ticket type also
      re-derives the price from it; every other field is written verbatim. */
  function Apply(p: Participant, e: Edit): Participant
  {
    match e
    case SetNome(v) => p.(nome := v)
    case SetTelefone(v) => p.(telefone := v)
    case SetTipo(t) => p.(tipo := t, valor := PriceOf(t))
    case SetValor(v) => p.(valor := v)
  }

  /** The update handler's new list: a copy with entry `index` replaced. */
  function Updated(ps: seq<Participant>, index: int, e: Edit): seq<Participant>
    requires 0 <= index < |ps|
  {
    ps[index := Apply(ps[index], e)]
  }

  /** Writing a field changes that field of that record and nothing else;
      writing the ticket type sets the price from it whatever it was. */
  lemma ApplyTouchesOneField(p: Participant, e: Edit)
    ensures Apply(p, e).nome == if e.SetNome? then e.nome else p.nome
    ensures Apply(p, e).telefone == if e.SetTelefone? then e.telefone else p.telefone
    ensures Apply(p, e).tipo == if e.SetTipo? then e.tipo else p.tipo
    ensures Apply(p, e).valor ==
      if e.SetTipo? then (if e.tipo == Adulto then 100 else 50)
      else if e.SetValor? then e.valor
      else p.valor
  {
  }

  /** An update keeps the length and every other entry, moves the total by
      the change in that entry's price, and keeps prices tied to types
      unless it writes the price itself. */
  lemma {:induction false} UpdatedFacts(ps: seq<Participant>, index: int, e: Edit)
    requires 0 <= index < |ps|
    ensures |Updated(ps, index, e)| == |ps|
    ensures forall j :: 0 <= j < |ps| && j != index ==> Updated(ps, index, e)[j] == ps[j]
    ensures Updated(ps, index, e)[index] == Apply(ps[index], e)
    ensures Total(Updated(ps, index, e)) == Total(ps) - ps[index].valor + Apply(ps[index], e).valor
    ensures PricesFromType(ps) && !e.SetValor? ==> PricesFromType(Updated(ps, index, e))
  {
    var x := Apply(ps[index], e);
    var r := Updated(ps, index, e);
    assert ps == ps[..index] + [ps[index]] + ps[index + 1..];
    assert r == ps[..index] + [x] + ps[index + 1..];
    TotalConcat(ps[..index], [ps[index]]);
    TotalConcat(ps[..index] + [ps[index]], ps[index + 1..]);
    TotalConcat(ps[..index], [x]);
    TotalConcat(ps[..index] + [x], ps[index + 1..]);
    TotalSingle(x);
    TotalSingle(ps[index]);
  }

  // ---------------------------------------------------------------------
  // Sequences of handler calls

  /** A handler call on the participant list. */
  datatype Action = Add | Remove(index: int) | Update(index: int, edit: Edit)

  /** The form calls the update handler only with an index it rendered. */
  predicate Enabled(ps: seq<Participant>, a: Action)
  {
    a.Update? ==> 0 <= a.index < |ps|
  }

  function Step(ps: seq<Participant>, a: Action): seq<Participant>
    requires Enabled(ps, a)
  {
    match a
    case Add => Added(ps)
    case Remove(i) => Removed(ps, i)
    case Update(i, e) => Updated(ps, i, e)
  }

  /** Every call in `acts` is enabled in the state it is applied to. */
  predicate Feasible(ps: seq<Participant>, acts: seq<Action>)
    decreases |acts|
  {
    acts == [] || (Enabled(ps, acts[0]) && Feasible(Step(ps, acts[0]), acts[1..]))
  }

  function Run(ps: seq<Participant>, acts: seq<Action>): seq<Participant>
    requires Feasible(ps, acts)
    decreases |acts|
  {
    if acts == [] then ps else Run(Step(ps, acts[0]), acts[1..])
  }

  /** The calls the rendered form makes: it never writes a price directly. */
  predicate FromForm(a: Action)
  {
    !(a.Update? && a.edit.SetValor?)
  }

  /** No sequence of add, remove and update calls empties a non-empty list. */
  lemma {:induction false} RunNeverEmpty(ps: seq<Participant>, acts: seq<Action>)
    requires |ps| >= 1 && Feasible(ps, acts)
    ensures |Run(ps, acts)| >= 1
    decreases |acts|
  {
    if acts != [] {
      match acts[0] {
        case Add => AddedFacts(ps);
        case Remove(i) => RemovedFacts(ps, i);
        case Update(i, e) => UpdatedFacts(ps, i, e);
      }
      RunNeverEmpty(Step(ps, acts[0]), acts[1..]);
    }
  }

  /** Calls the form makes keep every price equal to its ticket type's. */
  lemma {:induction false} RunKeepsPricesFromType(ps: seq<Participant>, acts: seq<Action>)
    requires PricesFromType(ps) && Feasible(ps, acts)
    requires forall k :: 0 <= k < |acts| ==> FromForm(acts[k])
    ensures PricesFromType(Run(ps, acts))
    decreases |acts|
  {
    if acts != [] {
      assert FromForm(acts[0]);
      match acts[0] {
        case Add => AddedFacts(ps);
        case Remove(i) => RemovedFacts(ps, i);
        case Update(i, e) => UpdatedFacts(ps, i, e);
      }
      RunKeepsPricesFromType(Step(ps, acts[0]), acts[1..]);
    }
  }

  /** From the initial list, any sequence of calls the form makes leaves a
      non-empty list whose total is 100 per adult plus 50 per child. */
  lemma ReachableTotal(acts: seq<Action>)
    requires Feasible(Initial, acts)
    requires forall k :: 0 <= k < |acts| ==> FromForm(acts[k])
    ensures |Run(Initial, acts)| >= 1
    ensures Total(Run(Initial, acts)) ==
      100 * CountOf(Run(Initial, acts), Adulto) + 50 * CountOf(Run(Initial, acts), Crianca)
  {
    RunNeverEmpty(Initial, acts);
    RunKeepsPricesFromType(Initial, acts);
    TotalByType(Run(Initial, acts));
  }

  /** One adult gives 100; adding an entry and making it a child gives 150;
      removing that child gives 100 again, with the original list back. */
  lemma AdultChildScenario()
    ensures var ana := [Participant("Ana Silva", "", Adulto, 100)];
      && Total(ana) == 100
      && Total(Updated(Added(ana), 1, SetTipo(Crianca))) == 150
      && Removed(Updated(Added(ana), 1, SetTipo(Crianca)), 1) == ana
      && Total(Removed(Updated(Added(ana), 1, SetTipo(Crianca)), 1)) == 100
  {
    var ana := [Participant("Ana Silva", "", Adulto, 100)];
    assert Total(ana) == 100 by {
      assert ana[..0] == [];
    }
    AddedFacts(ana);
    UpdatedFacts(Added(ana), 1, SetTipo(Crianca));
    RemovedFacts(Updated(Added(ana), 1, SetTipo(Crianca)), 1);
    assert Updated(Added(ana), 1, SetTipo(Crianca))[..1] == ana;
  }
}
