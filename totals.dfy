/** `calculateTotals`: three left folds over a group's events and payables. */
module Totals {
  import opened Types
  import opened Lists
  import GroupData

  /** The member whose payments `totalPaid` counts; the source hard-codes it. */
  const CurrentUser: string := "m1"

  datatype Totals = Totals(totalAmount: real, totalOwed: real, totalPaid: real)

  predicate NonNegativeAmounts(es: seq<Event>)
  {
    forall i :: 0 <= i < |es| ==> es[i].amount >= 0.0
  }

  /** `events.reduce((sum, event) => sum + event.amount, 0)`. */
  function TotalAmount(es: seq<Event>): (t: real)
    ensures NonNegativeAmounts(es) ==> t >= 0.0
  {
    if es == [] then 0.0
    else TotalAmount(es[..|es| - 1]) + es[|es| - 1].amount
  }

  /** `payable.reduce((sum, payment) => sum + payment.amount, 0)`. */
  function TotalOwed(ps: seq<Payable>): real
  {
    if ps == [] then 0.0
    else TotalOwed(ps[..|ps| - 1]) + ps[|ps| - 1].amount
  }

  /** `events.reduce((sum, event) => sum + (event.payer === 'm1' ? event.amount : 0), 0)`. */
  function TotalPaid(es: seq<Event>): real
  {
    if es == [] then 0.0
    else TotalPaid(es[..|es| - 1]) + (if es[|es| - 1].payer == CurrentUser then es[|es| - 1].amount else 0.0)
  }

  function CalculateTotals(g: Group): (t: Totals)
    ensures NonNegativeAmounts(g.events) ==> 0.0 <= t.totalPaid <= t.totalAmount
  {
    PaidAtMostTotal(g.events);
    Totals(TotalAmount(g.events), TotalOwed(g.payable), TotalPaid(g.events))
  }

  /** With non-negative amounts, what the current user paid lies between 0 and the total. */
  lemma {:induction false} PaidAtMostTotal(es: seq<Event>)
    ensures NonNegativeAmounts(es) ==> 0.0 <= TotalPaid(es) <= TotalAmount(es)
  {
    if es != [] && NonNegativeAmounts(es) {
      var front := es[..|es| - 1];
      assert NonNegativeAmounts(front) by {
        forall i | 0 <= i < |front| ensures front[i].amount >= 0.0 {
          assert front[i] == es[i];
        }
      }
      PaidAtMostTotal(front);
    }
  }

  /** A group with no events and no payables totals to zero on all three counts. */
  lemma EmptyGroupTotals(g: Group)
    requires g.events == [] && g.payable == []
    ensures CalculateTotals(g) == Totals(0.0, 0.0, 0.0)
  {
  }

  /** Appending an event raises the total by its amount. */
  lemma TotalAmountAppend(es: seq<Event>, e: Event)
    ensures TotalAmount(es + [e]) == TotalAmount(es) + e.amount
    ensures TotalPaid(es + [e]) == TotalPaid(es) + (if e.payer == CurrentUser then e.amount else 0.0)
  {
    assert (es + [e])[..|es|] == es;
  }

  /** The fold is a sum: it splits over concatenation. */
  lemma {:induction false} TotalAmountConcat(a: seq<Event>, b: seq<Event>)
    ensures TotalAmount(a + b) == TotalAmount(a) + TotalAmount(b)
    decreases |b|
  {
    if b != [] {
      var front := b[..|b| - 1];
      assert (a + b)[..|a + b| - 1] == a + front;
      TotalAmountConcat(a, front);
    } else {
      assert a + b == a;
    }
  }

  lemma {:induction false} TotalPaidConcat(a: seq<Event>, b: seq<Event>)
    ensures TotalPaid(a + b) == TotalPaid(a) + TotalPaid(b)
    decreases |b|
  {
    if b != [] {
      var front := b[..|b| - 1];
      assert (a + b)[..|a + b| - 1] == a + front;
      TotalPaidConcat(a, front);
    } else {
      assert a + b == a;
    }
  }

  predicate PaidByCurrentUser(e: Event)
  {
    e.payer == CurrentUser
  }

  /** `totalPaid` is the total amount of the events the current user paid for. */
  lemma {:induction false} PaidIsTotalOfOwnEvents(es: seq<Event>)
    ensures TotalPaid(es) == TotalAmount(Filter(es, PaidByCurrentUser))
  {
    if es != [] {
      var rest := es[1..];
      PaidIsTotalOfOwnEvents(rest);
      assert es == [es[0]] + rest;
      TotalPaidConcat([es[0]], rest);
      assert TotalPaid([es[0]]) == if PaidByCurrentUser(es[0]) then es[0].amount else 0.0;
      if PaidByCurrentUser(es[0]) {
        TotalAmountConcat([es[0]], Filter(rest, PaidByCurrentUser));
        assert TotalAmount([es[0]]) == es[0].amount;
      }
    }
  }

  /** Totals read only amounts and payers: two event lists that agree on those
      (position by position) have the same total and the same paid total. */
  lemma {:induction false} TotalsOnlyReadAmountAndPayer(a: seq<Event>, b: seq<Event>)
    requires |a| == |b|
    requires forall i :: 0 <= i < |a| ==> a[i].amount == b[i].amount && a[i].payer == b[i].payer
    ensures TotalAmount(a) == TotalAmount(b) && TotalPaid(a) == TotalPaid(b)
  {
    if a != [] {
      TotalsOnlyReadAmountAndPayer(a[..|a| - 1], b[..|b| - 1]);
    }
  }

  /** When the current user paid for every event, they paid the whole total. */
  lemma {:induction false} AllPaidByCurrentUser(es: seq<Event>)
    requires forall i :: 0 <= i < |es| ==> es[i].payer == CurrentUser
    ensures TotalPaid(es) == TotalAmount(es)
  {
    if es != [] {
      AllPaidByCurrentUser(es[..|es| - 1]);
    }
  }

  /** The sample data: Goa Trip totals (2800, 200, 2000), Family totals (1000, 500, 1000). */
  lemma DummyGroupTotals(loadedAt: int)
    ensures CalculateTotals(GroupData.DummyGroups(loadedAt)[0]) == Totals(2800.0, 200.0, 2000.0)
    ensures CalculateTotals(GroupData.DummyGroups(loadedAt)[1]) == Totals(1000.0, 500.0, 1000.0)
  {
    var gs := GroupData.DummyGroups(loadedAt);
    var goa, family := gs[0].events, gs[1].events;
    assert goa[..1] == [goa[0]] && goa[..1][..0] == [] && family[..0] == [];
    assert gs[0].payable[..0] == [] && gs[1].payable[..0] == [];
    assert goa[0].payer == CurrentUser && goa[1].payer != CurrentUser;
    assert TotalAmount(goa) == TotalAmount(goa[..1]) + 800.0 == 2800.0;
    assert TotalPaid(goa) == TotalPaid(goa[..1]) == 2000.0;
    assert TotalAmount(family) == 1000.0 && TotalPaid(family) == 1000.0;
  }
}
