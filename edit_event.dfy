/** The save handler of the edit-event screen: validate the typed title, then patch
    the event's title and description in the store. */
module EditEventScreen {
  import opened Types
  import opened JsText
  import opened GroupStore
  import Totals

  datatype SaveError = TitleRequired

  /** `{ title: eventTitle.trim(), description: eventDescription.trim() }`. */
  function TextPatch(titleInput: string, descInput: string): EventPatch
  {
    EventPatch(None, Some(Trim(titleInput)), Some(Trim(descInput)), None, None, None, None, None)
  }

  /** Spreading the text patch over an event replaces its title and description only. */
  lemma MergeText(e: Event, titleInput: string, descInput: string)
    ensures MergeEvent(e, TextPatch(titleInput, descInput))
            == e.(title := Trim(titleInput), description := Trim(descInput))
  {
  }

  /** What pressing "Save" does to the list of groups, or the alert it shows instead.
      Neither the group nor the event is looked up first: an unknown id reaches
      `editEvent`, which then changes nothing. */
  function SaveEvent(gs: seq<Group>, groupId: string, eventId: string, titleInput: string, descInput: string)
    : (r: Result<seq<Group>, SaveError>)
    ensures r.Failure? <==> IsBlank(titleInput)
    ensures r.Success? ==> |r.value| == |gs|
    ensures r.Success? ==> forall i :: 0 <= i < |gs| ==> SameExceptEvents(r.value[i], gs[i])
    ensures r.Success? ==> forall i :: 0 <= i < |gs| && gs[i].id != groupId ==> r.value[i] == gs[i]
    ensures r.Success? ==> forall i :: 0 <= i < |gs| && gs[i].id == groupId ==>
      |r.value[i].events| == |gs[i].events|
    ensures r.Success? ==> forall i, j :: 0 <= i < |gs| && gs[i].id == groupId && 0 <= j < |gs[i].events| ==>
      r.value[i].events[j] ==
        if gs[i].events[j].id == eventId
        then gs[i].events[j].(title := Trim(titleInput), description := Trim(descInput))
        else gs[i].events[j]
  {
    if IsBlank(titleInput) then Failure(TitleRequired)
    else
      var patch := TextPatch(titleInput, descInput);
      var r := UpdateEvent(gs, groupId, eventId, patch);
      forall i, j | 0 <= i < |gs| && gs[i].id == groupId && 0 <= j < |gs[i].events|
        ensures r[i].events[j] ==
          if gs[i].events[j].id == eventId
          then gs[i].events[j].(title := Trim(titleInput), description := Trim(descInput))
          else gs[i].events[j]
      {
        assert r[i].events == PatchEvents(gs[i].events, eventId, patch);
        MergeText(gs[i].events[j], titleInput, descInput);
      }
      Success(r)
  }

  /** Editing the text of an event leaves every group's totals as they were. */
  lemma SaveEventKeepsTotals(gs: seq<Group>, groupId: string, eventId: string, titleInput: string, descInput: string, i: nat)
    requires SaveEvent(gs, groupId, eventId, titleInput, descInput).Success?
    requires i < |gs|
    ensures Totals.CalculateTotals(SaveEvent(gs, groupId, eventId, titleInput, descInput).value[i])
            == Totals.CalculateTotals(gs[i])
  {
    UpdateEventKeepsTotals(gs, groupId, eventId, TextPatch(titleInput, descInput), i);
  }

  /** Saving an event the group does not hold (or a group that is gone) changes nothing,
      though the screen still reports success. */
  lemma SaveAbsentEvent(gs: seq<Group>, groupId: string, eventId: string, titleInput: string, descInput: string)
    requires !IsBlank(titleInput)
    requires forall i, j :: 0 <= i < |gs| && gs[i].id == groupId && 0 <= j < |gs[i].events|
               ==> gs[i].events[j].id != eventId
    ensures SaveEvent(gs, groupId, eventId, titleInput, descInput) == Success(gs)
  {
    UpdateAbsentEvent(gs, groupId, eventId, TextPatch(titleInput, descInput));
  }

  /** Pressing "Save" twice with the same text has the effect of pressing it once. */
  lemma SaveEventIdempotent(gs: seq<Group>, groupId: string, eventId: string, titleInput: string, descInput: string)
    requires !IsBlank(titleInput)
    ensures SaveEvent(SaveEvent(gs, groupId, eventId, titleInput, descInput).value, groupId, eventId, titleInput, descInput)
            == SaveEvent(gs, groupId, eventId, titleInput, descInput)
  {
    UpdateEventIdempotent(gs, groupId, eventId, TextPatch(titleInput, descInput));
  }

  /** `handleSave`, against the store it writes to. */
  method HandleSave(store: Store, groupId: string, eventId: string, titleInput: string, descInput: string)
    returns (outcome: Result<(), SaveError>)
    modifies store
    ensures outcome.Failure? <==> SaveEvent(old(store.groups), groupId, eventId, titleInput, descInput).Failure?
    ensures outcome.Failure? ==> store.groups == old(store.groups)
    ensures outcome.Success? ==>
      SaveEvent(old(store.groups), groupId, eventId, titleInput, descInput) == Success(store.groups)
  {
    if IsBlank(titleInput) {
      return Failure(TitleRequired);
    }
    store.EditEvent(groupId, eventId, TextPatch(titleInput, descInput));
    return Success(());
  }
}
