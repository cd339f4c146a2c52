/** The save handler of the edit-group screen: validate the typed name, then hand
    the store a copy of the group with the trimmed name and description. */
module EditGroupScreen {
  import opened Types
  import opened JsText
  import opened GroupStore
  import Totals

  datatype SaveError = NameRequired | GroupNotFound

  /** `{ ...group, name: groupName.trim(), description: groupDescription.trim() }`. */
  function Renamed(g: Group, nameInput: string, descInput: string): Group
  {
    g.(name := Trim(nameInput), description := Trim(descInput))
  }

  /** What pressing "Save" does to the list of groups, or the alert it shows instead.
      The group edited is the first one with the route's id (`groups.find`); `editGroup`
      then writes that copy over every group with this id. */
  function SaveGroup(gs: seq<Group>, groupId: string, nameInput: string, descInput: string)
    : (r: Result<seq<Group>, SaveError>)
    ensures (r.Failure? && r.error.NameRequired?) <==> IsBlank(nameInput)
    ensures (r.Failure? && r.error.GroupNotFound?) <==> !IsBlank(nameInput) && !HasGroup(gs, groupId)
    ensures r.Success? ==> |r.value| == |gs|
    ensures r.Success? ==> forall i :: 0 <= i < |gs| && gs[i].id != groupId ==> r.value[i] == gs[i]
    ensures r.Success? ==> forall i :: 0 <= i < |gs| && gs[i].id == groupId ==>
      var first := gs[IndexOfGroup(gs, groupId)];
      && r.value[i].id == groupId
      && r.value[i].name == Trim(nameInput) && r.value[i].description == Trim(descInput)
      && r.value[i].members == first.members && r.value[i].events == first.events
      && r.value[i].payable == first.payable
  {
    if IsBlank(nameInput) then Failure(NameRequired)
    else
      var group := FindGroup(gs, groupId);
      FindGroupIffPresent(gs, groupId);
      if group.None? then Failure(GroupNotFound)
      else Success(ReplaceGroup(gs, groupId, Renamed(group.value, nameInput, descInput)))
  }

  /** With distinct group ids the edited group keeps its own members, events and
      payables: only its name and description change. */
  lemma SaveGroupWithDistinctIds(gs: seq<Group>, groupId: string, nameInput: string, descInput: string, i: nat)
    requires DistinctGroupIds(gs)
    requires SaveGroup(gs, groupId, nameInput, descInput).Success?
    requires i < |gs| && gs[i].id == groupId
    ensures SaveGroup(gs, groupId, nameInput, descInput).value[i] == Renamed(gs[i], nameInput, descInput)
  {
    var k := IndexOfGroup(gs, groupId);
    assert k < |gs| && gs[k].id == gs[i].id;
    assert k == i;
  }

  /** A saved name is never blank, and saving it again does not change it. */
  lemma SavedNameIsTrimmed(gs: seq<Group>, groupId: string, nameInput: string, descInput: string, i: nat)
    requires SaveGroup(gs, groupId, nameInput, descInput).Success?
    requires i < |gs| && gs[i].id == groupId
    ensures !IsBlank(SaveGroup(gs, groupId, nameInput, descInput).value[i].name)
    ensures Trim(SaveGroup(gs, groupId, nameInput, descInput).value[i].name) == Trim(nameInput)
  {
    TrimIdempotent(nameInput);
  }

  /** Editing a group leaves the totals of every group as they were, when ids are distinct. */
  lemma SaveGroupKeepsTotals(gs: seq<Group>, groupId: string, nameInput: string, descInput: string, i: nat)
    requires DistinctGroupIds(gs)
    requires SaveGroup(gs, groupId, nameInput, descInput).Success?
    requires i < |gs|
    ensures Totals.CalculateTotals(SaveGroup(gs, groupId, nameInput, descInput).value[i]) == Totals.CalculateTotals(gs[i])
  {
    if gs[i].id == groupId {
      SaveGroupWithDistinctIds(gs, groupId, nameInput, descInput, i);
    }
  }

  /** `handleSave`, against the store it reads the group from and writes to. The
      returned group is the `updatedGroup` handed to `editGroup`. */
  method HandleSave(store: Store, groupId: string, nameInput: string, descInput: string)
    returns (outcome: Result<Group, SaveError>)
    modifies store
    ensures outcome.Failure? ==>
      SaveGroup(old(store.groups), groupId, nameInput, descInput) == Failure(outcome.error)
      && store.groups == old(store.groups)
    ensures outcome.Success? ==>
      SaveGroup(old(store.groups), groupId, nameInput, descInput) == Success(store.groups)
      && store.groups == ReplaceGroup(old(store.groups), groupId, outcome.value)
  {
    var group := FindGroup(store.groups, groupId);
    if IsBlank(nameInput) {
      return Failure(NameRequired);
    }
    if group.None? {
      return Failure(GroupNotFound);
    }
    var updatedGroup := Renamed(group.value, nameInput, descInput);
    store.EditGroup(groupId, updatedGroup);
    return Success(updatedGroup);
  }
}
