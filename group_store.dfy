/** The group store: a mutable list of groups and the eight actions that replace it.
    Each action computes the new list with `filter`, `map` or an append (the pure
    functions below) and then assigns it (the `Store` class). */
module GroupStore {
  import opened Types
  import opened Lists
  import GroupData
  import Totals

  /** A partial event record, as `editEvent` receives it: a field that is `None`
      is absent from the object and keeps its old value when spread in. */
  datatype EventPatch = EventPatch(
    id: Option<string>,
    title: Option<string>,
    description: Option<string>,
    category: Option<string>,
    amount: Option<real>,
    timestamp: Option<int>,
    payer: Option<string>,
    splitBetween: Option<map<string, real>>)

  function Pick<T>(update: Option<T>, current: T): T
  {
    if update.Some? then update.value else current
  }

  /** `{ ...event, ...patch }`. */
  function MergeEvent(e: Event, p: EventPatch): Event
  {
    Event(Pick(p.id, e.id), Pick(p.title, e.title), Pick(p.description, e.description),
          Pick(p.category, e.category), Pick(p.amount, e.amount), Pick(p.timestamp, e.timestamp),
          Pick(p.payer, e.payer), Pick(p.splitBetween, e.splitBetween))
  }

  /** A patch carrying every field of `e`. */
  function FullPatch(e: Event): EventPatch
  {
    EventPatch(Some(e.id), Some(e.title), Some(e.description), Some(e.category),
               Some(e.amount), Some(e.timestamp), Some(e.payer), Some(e.splitBetween))
  }

  /** Spreading a complete record replaces the event; spreading an empty one keeps it. */
  lemma MergeFullOrEmpty(e: Event, u: Event)
    ensures MergeEvent(e, FullPatch(u)) == u
    ensures MergeEvent(e, EventPatch(None, None, None, None, None, None, None, None)) == e
  {
  }

  /** Field by field: a field the patch carries is overwritten, a field it lacks keeps
      its old value. */
  lemma MergeEventFields(e: Event, p: EventPatch)
    ensures var m := MergeEvent(e, p);
      && (p.id.Some? ==> m.id == p.id.value) && (p.id.None? ==> m.id == e.id)
      && (p.title.Some? ==> m.title == p.title.value) && (p.title.None? ==> m.title == e.title)
      && (p.description.Some? ==> m.description == p.description.value)
      && (p.description.None? ==> m.description == e.description)
      && (p.category.Some? ==> m.category == p.category.value) && (p.category.None? ==> m.category == e.category)
      && (p.amount.Some? ==> m.amount == p.amount.value) && (p.amount.None? ==> m.amount == e.amount)
      && (p.timestamp.Some? ==> m.timestamp == p.timestamp.value) && (p.timestamp.None? ==> m.timestamp == e.timestamp)
      && (p.payer.Some? ==> m.payer == p.payer.value) && (p.payer.None? ==> m.payer == e.payer)
      && (p.splitBetween.Some? ==> m.splitBetween == p.splitBetween.value)
      && (p.splitBetween.None? ==> m.splitBetween == e.splitBetween)
  {
  }

  /** No two groups share an id (the ids the screens create are timestamps). */
  predicate DistinctGroupIds(gs: seq<Group>)
  {
    forall i, j :: 0 <= i < j < |gs| ==> gs[i].id != gs[j].id
  }

  /** `groups.findIndex(g => g.id === groupId)`, with `|gs|` for "not found". */
  function IndexOfGroup(gs: seq<Group>, groupId: string): (k: nat)
    ensures k <= |gs|
    ensures k < |gs| ==> gs[k].id == groupId
    ensures forall j :: 0 <= j < k ==> gs[j].id != groupId
  {
    if gs == [] then 0
    else if gs[0].id == groupId then 0
    else 1 + IndexOfGroup(gs[1..], groupId)
  }

  /** `groups.find(g => g.id === groupId)`: the first group with that id, if any. */
  function FindGroup(gs: seq<Group>, groupId: string): (r: Option<Group>)
    ensures r.Some? ==> r.value.id == groupId && r.value in gs
    ensures r.Some? ==> exists k :: 0 <= k < |gs| && gs[k] == r.value && forall j :: 0 <= j < k ==> gs[j].id != groupId
    ensures r.None? ==> forall i :: 0 <= i < |gs| ==> gs[i].id != groupId
  {
    var k := IndexOfGroup(gs, groupId);
    if k < |gs| then Some(gs[k]) else None
  }

  predicate HasGroup(gs: seq<Group>, groupId: string)
  {
    exists i :: 0 <= i < |gs| && gs[i].id == groupId
  }

  lemma FindGroupIffPresent(gs: seq<Group>, groupId: string)
    ensures FindGroup(gs, groupId).Some? <==> HasGroup(gs, groupId)
    ensures FindGroup(gs, groupId).Some? ==> FindGroup(gs, groupId).value.id == groupId
  {
  }

  /** The two groups agree on everything except their event lists. */
  predicate SameExceptEvents(a: Group, b: Group)
  {
    a.id == b.id && a.name == b.name && a.description == b.description
    && a.members == b.members && a.payable == b.payable
  }

  // ---- the actions' new values ----

  /** `removeGroup` and `deleteGroup`: `groups.filter(g => g.id !== groupId)`. */
  function WithoutGroup(gs: seq<Group>, groupId: string): (r: seq<Group>)
    ensures Subsequence(r, gs)
    ensures forall i :: 0 <= i < |r| ==> r[i].id != groupId
    ensures forall i :: 0 <= i < |gs| && gs[i].id != groupId ==> gs[i] in r
    ensures forall g :: multiset(r)[g] == if g.id != groupId then multiset(gs)[g] else 0
  {
    FilterCounts(gs, (g: Group) => g.id != groupId);
    Filter(gs, (g: Group) => g.id != groupId)
  }

  /** `addEvent`: the groups with that id get `event` appended to their events. */
  function AppendEvent(gs: seq<Group>, groupId: string, event: Event): (r: seq<Group>)
    ensures |r| == |gs|
    ensures forall i :: 0 <= i < |gs| ==> SameExceptEvents(r[i], gs[i])
    ensures forall i :: 0 <= i < |gs| && gs[i].id == groupId ==> r[i].events == gs[i].events + [event]
    ensures forall i :: 0 <= i < |gs| && gs[i].id != groupId ==> r[i] == gs[i]
  {
    MapWhere(gs, (g: Group) => g.id == groupId, (g: Group) => g.(events := g.events + [event]))
  }

  /** `editGroup`: `{ ...group, ...updatedGroup }` with a complete group record,
      so every group with that id becomes `updated`. */
  function ReplaceGroup(gs: seq<Group>, groupId: string, updated: Group): (r: seq<Group>)
    ensures |r| == |gs|
    ensures forall i :: 0 <= i < |gs| ==> r[i] == if gs[i].id == groupId then updated else gs[i]
  {
    MapWhere(gs, (g: Group) => g.id == groupId, (g: Group) => updated)
  }

  /** `group.events.filter(event => event.id !== eventId)`. */
  function WithoutEvent(es: seq<Event>, eventId: string): (r: seq<Event>)
    ensures Subsequence(r, es)
    ensures forall j :: 0 <= j < |r| ==> r[j].id != eventId
    ensures forall j :: 0 <= j < |es| && es[j].id != eventId ==> es[j] in r
    ensures forall e :: multiset(r)[e] == if e.id != eventId then multiset(es)[e] else 0
  {
    FilterCounts(es, (e: Event) => e.id != eventId);
    Filter(es, (e: Event) => e.id != eventId)
  }

  /** `deleteEvent`: the groups with that id drop the events with that event id. */
  function RemoveEvent(gs: seq<Group>, groupId: string, eventId: string): (r: seq<Group>)
    ensures |r| == |gs|
    ensures forall i :: 0 <= i < |gs| ==> SameExceptEvents(r[i], gs[i])
    ensures forall i :: 0 <= i < |gs| && gs[i].id == groupId ==> r[i].events == WithoutEvent(gs[i].events, eventId)
    ensures forall i :: 0 <= i < |gs| && gs[i].id != groupId ==> r[i] == gs[i]
  {
    MapWhere(gs, (g: Group) => g.id == groupId,
             (g: Group) => g.(events := WithoutEvent(g.events, eventId)))
  }

  /** `group.events.map(event => event.id === eventId ? { ...event, ...patch } : event)`. */
  function PatchEvents(es: seq<Event>, eventId: string, patch: EventPatch): (r: seq<Event>)
    ensures |r| == |es|
    ensures forall j :: 0 <= j < |es| ==> r[j] == if es[j].id == eventId then MergeEvent(es[j], patch) else es[j]
  {
    MapWhere(es, (e: Event) => e.id == eventId, (e: Event) => MergeEvent(e, patch))
  }

  /** `editEvent`: in the groups with that id, the events with that event id are patched. */
  function UpdateEvent(gs: seq<Group>, groupId: string, eventId: string, patch: EventPatch): (r: seq<Group>)
    ensures |r| == |gs|
    ensures forall i :: 0 <= i < |gs| ==> SameExceptEvents(r[i], gs[i])
    ensures forall i :: 0 <= i < |gs| && gs[i].id == groupId ==> r[i].events == PatchEvents(gs[i].events, eventId, patch)
    ensures forall i :: 0 <= i < |gs| && gs[i].id != groupId ==> r[i] == gs[i]
  {
    MapWhere(gs, (g: Group) => g.id == groupId,
             (g: Group) => g.(events := PatchEvents(g.events, eventId, patch)))
  }

  // ---- properties of the actions ----

  /** Removing a group twice is removing it once, and afterwards no group has that id. */
  lemma {:induction false} RemoveGroupIdempotent(gs: seq<Group>, groupId: string)
    ensures WithoutGroup(WithoutGroup(gs, groupId), groupId) == WithoutGroup(gs, groupId)
    ensures FindGroup(WithoutGroup(gs, groupId), groupId) == None
  {
    FilterIdempotent(gs, (g: Group) => g.id != groupId);
  }

  /** Removing an id no group has leaves the list as it was. */
  lemma {:induction false} RemoveAbsentGroup(gs: seq<Group>, groupId: string)
    requires !HasGroup(gs, groupId)
    ensures WithoutGroup(gs, groupId) == gs
  {
    FilterAllKept(gs, (g: Group) => g.id != groupId);
  }

  /** A new group whose id is not yet taken is what `find` returns after `addGroup`. */
  lemma AddGroupFind(gs: seq<Group>, group: Group)
    requires !HasGroup(gs, group.id)
    ensures FindGroup(gs + [group], group.id) == Some(group)
  {
    var all := gs + [group];
    assert all[|gs|].id == group.id;
    assert forall j :: 0 <= j < |gs| ==> all[j] == gs[j];
  }

  /** `addEvent` to an unknown group changes nothing. */
  lemma AppendEventUnknownGroup(gs: seq<Group>, groupId: string, event: Event)
    requires !HasGroup(gs, groupId)
    ensures AppendEvent(gs, groupId, event) == gs
  {
  }

  /** `addEvent` raises the target group's total by the event's amount and leaves
      what the group owes (its payables) where it was. */
  lemma AppendEventTotals(gs: seq<Group>, groupId: string, event: Event, i: nat)
    requires i < |gs| && gs[i].id == groupId
    ensures Totals.TotalAmount(AppendEvent(gs, groupId, event)[i].events)
            == Totals.TotalAmount(gs[i].events) + event.amount
    ensures Totals.TotalOwed(AppendEvent(gs, groupId, event)[i].payable) == Totals.TotalOwed(gs[i].payable)
  {
    Totals.TotalAmountAppend(gs[i].events, event);
  }

  /** Deleting an event twice is deleting it once. */
  lemma RemoveEventIdempotent(gs: seq<Group>, groupId: string, eventId: string)
    ensures RemoveEvent(RemoveEvent(gs, groupId, eventId), groupId, eventId) == RemoveEvent(gs, groupId, eventId)
  {
    var once := RemoveEvent(gs, groupId, eventId);
    var twice := RemoveEvent(once, groupId, eventId);
    forall i | 0 <= i < |gs| ensures twice[i] == once[i] {
      if gs[i].id == groupId {
        FilterIdempotent(gs[i].events, (e: Event) => e.id != eventId);
      }
    }
  }

  /** Editing an event id the group does not contain changes nothing. */
  lemma UpdateAbsentEvent(gs: seq<Group>, groupId: string, eventId: string, patch: EventPatch)
    requires forall i, j :: 0 <= i < |gs| && gs[i].id == groupId && 0 <= j < |gs[i].events|
               ==> gs[i].events[j].id != eventId
    ensures UpdateEvent(gs, groupId, eventId, patch) == gs
  {
    var r := UpdateEvent(gs, groupId, eventId, patch);
    forall i | 0 <= i < |gs| ensures r[i] == gs[i] {
      if gs[i].id == groupId {
        assert r[i].events == gs[i].events;
      }
    }
  }

  /** Applying the same edit twice is applying it once. An event the first edit renamed
      is no longer found by the second; one it kept the id of is merged again, to no effect. */
  lemma UpdateEventIdempotent(gs: seq<Group>, groupId: string, eventId: string, patch: EventPatch)
    ensures UpdateEvent(UpdateEvent(gs, groupId, eventId, patch), groupId, eventId, patch)
            == UpdateEvent(gs, groupId, eventId, patch)
  {
    var once := UpdateEvent(gs, groupId, eventId, patch);
    var twice := UpdateEvent(once, groupId, eventId, patch);
    forall i | 0 <= i < |gs| ensures twice[i] == once[i] {
      if gs[i].id == groupId {
        var es := once[i].events;
        assert |twice[i].events| == |es|;
        forall j | 0 <= j < |es| ensures twice[i].events[j] == es[j] {
          if gs[i].events[j].id == eventId {
            assert es[j] == MergeEvent(gs[i].events[j], patch);
            assert MergeEvent(es[j], patch) == es[j];
          }
        }
      }
    }
  }

  /** A patch that leaves amount and payer absent leaves every group's totals unchanged. */
  lemma UpdateEventKeepsTotals(gs: seq<Group>, groupId: string, eventId: string, patch: EventPatch, i: nat)
    requires patch.amount.None? && patch.payer.None?
    requires i < |gs|
    ensures Totals.CalculateTotals(UpdateEvent(gs, groupId, eventId, patch)[i]) == Totals.CalculateTotals(gs[i])
  {
    var r := UpdateEvent(gs, groupId, eventId, patch);
    Totals.TotalsOnlyReadAmountAndPayer(r[i].events, gs[i].events);
  }

  /** The store. `isHydrated` and the persistence middleware are not part of this model. */
  class Store {
    var groups: seq<Group>
    /** The instant the sample data were built (their `new Date()` timestamps). */
    const loadedAt: int

    constructor (loadedAt: int)
      ensures this.loadedAt == loadedAt
      ensures groups == GroupData.DummyGroups(loadedAt)
    {
      this.loadedAt := loadedAt;
      groups := GroupData.DummyGroups(loadedAt);
    }

    method AddGroup(group: Group)
      modifies this
      ensures groups == old(groups) + [group]
    {
      groups := groups + [group];
    }

    method RemoveGroup(groupId: string)
      modifies this
      ensures groups == WithoutGroup(old(groups), groupId)
    {
      groups := WithoutGroup(groups, groupId);
    }

    method ResetGroups()
      modifies this
      ensures groups == GroupData.DummyGroups(loadedAt)
    {
      groups := GroupData.DummyGroups(loadedAt);
    }

    method AddEvent(groupId: string, event: Event)
      modifies this
      ensures groups == AppendEvent(old(groups), groupId, event)
    {
      groups := AppendEvent(groups, groupId, event);
    }

    /** The same filter as `RemoveGroup`. */
    method DeleteGroup(groupId: string)
      modifies this
      ensures groups == WithoutGroup(old(groups), groupId)
    {
      groups := WithoutGroup(groups, groupId);
    }

    method EditGroup(groupId: string, updatedGroup: Group)
      modifies this
      ensures groups == ReplaceGroup(old(groups), groupId, updatedGroup)
    {
      groups := ReplaceGroup(groups, groupId, updatedGroup);
    }

    method DeleteEvent(groupId: string, eventId: string)
      modifies this
      ensures groups == RemoveEvent(old(groups), groupId, eventId)
    {
      groups := RemoveEvent(groups, groupId, eventId);
    }

    method EditEvent(groupId: string, eventId: string, patch: EventPatch)
      modifies this
      ensures groups == UpdateEvent(old(groups), groupId, eventId, patch)
    {
      groups := UpdateEvent(groups, groupId, eventId, patch);
    }
  }
}
