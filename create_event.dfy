/** The logic of the create-event screen: the split state kept by the form, the
    equal and percentage splits, validation, and the new event handed to `addEvent`. */
module CreateEvent {
  import opened Types
  import opened JsText
  import opened RealMaps
  import opened GroupStore

  datatype SplitType = Equal | Percentage

  /** One property of the `splitValues` form object: a member id and its number. */
  datatype Entry = Entry(memberId: string, value: real)

  predicate DistinctKeys(es: seq<Entry>)
  {
    forall i, j :: 0 <= i < j < |es| ==> es[i].memberId != es[j].memberId
  }

  /** The `splitValues` object: its own keys are distinct and in insertion order. JavaScript
      lists keys that are array indices (such as "0") first, in numeric order; the member
      ids here (`'m1'`, `Date.now()` strings of 13 digits) are not array indices, so for
      them insertion order is the order the object reports. */
  type SplitValues = es: seq<Entry> | DistinctKeys(es) witness []

  /** The position of `key` among the object's keys, `|es|` when it has no such key. */
  function IndexOfKey(es: seq<Entry>, key: string): (p: nat)
    ensures p <= |es|
    ensures p < |es| ==> es[p].memberId == key
    ensures p == |es| ==> forall j :: 0 <= j < |es| ==> es[j].memberId != key
  {
    if es == [] then 0
    else if es[|es| - 1].memberId == key then |es| - 1
    else
      var p := IndexOfKey(es[..|es| - 1], key);
      if p < |es| - 1 then p else |es|
  }

  /** `key in splitValues`. */
  predicate HasKey(es: seq<Entry>, key: string)
  {
    IndexOfKey(es, key) < |es|
  }

  /** The keys of a non-empty object are those of all but its last property, and
      the last property's key. */
  lemma HasKeyLast(es: seq<Entry>)
    requires es != []
    ensures forall k :: HasKey(es, k) <==> HasKey(es[..|es| - 1], k) || es[|es| - 1].memberId == k
  {
    var front := es[..|es| - 1];
    forall k ensures HasKey(es, k) <==> HasKey(front, k) || es[|es| - 1].memberId == k {
      assert forall j :: 0 <= j < |front| ==> front[j] == es[j];
    }
  }

  /** `splitValues[key]`, `None` for a key the object does not have. */
  function Lookup(es: seq<Entry>, key: string): (r: Option<real>)
    ensures r.Some? <==> HasKey(es, key)
    ensures DistinctKeys(es) ==> forall i :: 0 <= i < |es| && es[i].memberId == key ==> r == Some(es[i].value)
  {
    var p := IndexOfKey(es, key);
    if p < |es| then Some(es[p].value) else None
  }

  /** `{ ...prev, [key]: value }`: an existing key keeps its place and takes the new
      value, a new key is added last. */
  function Put(es: SplitValues, key: string, value: real): (r: SplitValues)
    ensures HasKey(es, key) ==>
      && |r| == |es| && r[IndexOfKey(es, key)] == Entry(key, value)
      && forall i :: 0 <= i < |es| && i != IndexOfKey(es, key) ==> r[i] == es[i]
    ensures !HasKey(es, key) ==> r == es + [Entry(key, value)]
    ensures Lookup(r, key) == Some(value)
    ensures forall k :: k != key ==> Lookup(r, k) == Lookup(es, k)
  {
    var p := IndexOfKey(es, key);
    var r: SplitValues := if p < |es| then es[p := Entry(key, value)] else es + [Entry(key, value)];
    assert r[if p < |es| then p else |es|] == Entry(key, value);
    forall k | k != key ensures Lookup(r, k) == Lookup(es, k) {
      var q := IndexOfKey(es, k);
      if q < |es| {
        assert r[q] == es[q];
      } else {
        assert forall j :: 0 <= j < |r| ==> r[j].memberId != k;
      }
    }
    r
  }

  /** `Object.values(splitValues).reduce((a, b) => a + b, 0)`. */
  function SumValues(es: seq<Entry>): real
  {
    if es == [] then 0.0 else SumValues(es[..|es| - 1]) + es[|es| - 1].value
  }

  /** `parseFloat(value) || 0` written under `member.id`; `None` is input that does
      not parse (NaN). */
  function EnterPercent(es: SplitValues, member: Member, parsed: Option<real>): (r: SplitValues)
    ensures Lookup(r, member.id) == Some(if parsed.Some? then parsed.value else 0.0)
    ensures forall k :: k != member.id ==> Lookup(r, k) == Lookup(es, k)
  {
    Put(es, member.id, if parsed.Some? then parsed.value else 0.0)
  }

  /** Every key of the form object is the id of one of the group's members. */
  predicate KeysAreMemberIds(es: seq<Entry>, members: seq<Member>)
  {
    forall i :: 0 <= i < |es| ==> es[i].memberId in IdSet(members)
  }

  /** The percentage inputs are rendered one per member, so typing into them keeps
      every key a member id. */
  lemma EnterPercentKeepsMemberKeys(es: SplitValues, members: seq<Member>, i: nat, parsed: Option<real>)
    requires KeysAreMemberIds(es, members)
    requires i < |members|
    ensures KeysAreMemberIds(EnterPercent(es, members[i], parsed), members)
  {
    var r := EnterPercent(es, members[i], parsed);
    assert members[i].id in IdSet(members);
    assert forall j :: 0 <= j < |r| ==> r[j].memberId == members[i].id || r[j] == es[j];
  }

  // ---- handleSplitChange ----

  /** The object `members.reduce((acc, m) => { acc[m.id] = share; return acc }, {})`. */
  function EqualEntries(ms: seq<Member>, share: real): SplitValues
  {
    if ms == [] then []
    else Put(EqualEntries(ms[..|ms| - 1], share), ms[|ms| - 1].id, share)
  }

  /** The equal-split object has exactly the member ids as keys. */
  lemma {:induction false} EqualEntriesKeys(ms: seq<Member>, share: real)
    ensures forall k :: HasKey(EqualEntries(ms, share), k) <==> k in IdSet(ms)
  {
    if ms != [] {
      var n := |ms| - 1;
      var front := ms[..n];
      var acc := EqualEntries(front, share);
      var r := EqualEntries(ms, share);
      EqualEntriesKeys(front, share);
      IdSetAppend(front, ms[n]);
      assert front + [ms[n]] == ms;
      forall k ensures HasKey(r, k) <==> k in IdSet(ms) {
        assert Lookup(r, k).Some? <==> HasKey(r, k);
        assert Lookup(acc, k).Some? <==> HasKey(acc, k);
      }
    }
  }

  /** Every value of the equal-split object is `share`. */
  lemma {:induction false} EqualEntriesValues(ms: seq<Member>, share: real)
    ensures forall i :: 0 <= i < |EqualEntries(ms, share)| ==> EqualEntries(ms, share)[i].value == share
  {
    if ms != [] {
      var n := |ms| - 1;
      var acc := EqualEntries(ms[..n], share);
      EqualEntriesValues(ms[..n], share);
      var r := EqualEntries(ms, share);
      assert forall i :: 0 <= i < |r| ==> r[i] == Entry(ms[n].id, share) || r[i] == acc[i];
    }
  }

  /** With distinct member ids, the keys of the equal-split object come in member order. */
  lemma {:induction false} EqualEntriesOrder(ms: seq<Member>, share: real)
    requires DistinctIds(ms)
    ensures |EqualEntries(ms, share)| == |ms|
    ensures forall i :: 0 <= i < |ms| ==> EqualEntries(ms, share)[i].memberId == ms[i].id
  {
    if ms != [] {
      var n := |ms| - 1;
      var front := ms[..n];
      var acc := EqualEntries(front, share);
      assert DistinctIds(front);
      EqualEntriesOrder(front, share);
      EqualEntriesKeys(front, share);
      assert ms[n].id !in IdSet(front) by {
        forall j | 0 <= j < |front| ensures front[j].id != ms[n].id {
          assert front[j] == ms[j];
        }
      }
      assert EqualEntries(ms, share) == acc + [Entry(ms[n].id, share)];
    }
  }

  /** `share` added up `k` times. */
  function Copies(k: nat, share: real): real
  {
    if k == 0 then 0.0 else Copies(k - 1, share) + share
  }

  /** Arithmetic helper: repeated addition is multiplication. */
  lemma {:induction false} CopiesIsProduct(k: nat, share: real)
    ensures Copies(k, share) == (k as real) * share
  {
    if k > 0 {
      CopiesIsProduct(k - 1, share);
    }
  }

  /** With distinct member ids the equal-split object holds one `share` per member. */
  lemma {:induction false} EqualEntriesSum(ms: seq<Member>, share: real)
    requires DistinctIds(ms)
    ensures SumValues(EqualEntries(ms, share)) == Copies(|ms|, share)
  {
    if ms != [] {
      var n := |ms| - 1;
      var front := ms[..n];
      assert DistinctIds(front);
      EqualEntriesSum(front, share);
      EqualEntriesOrder(ms, share);
      EqualEntriesValues(ms, share);
      EqualEntriesKeys(front, share);
      assert ms[n].id !in IdSet(front) by {
        forall j | 0 <= j < |front| ensures front[j].id != ms[n].id {
          assert front[j] == ms[j];
        }
      }
      var r := EqualEntries(ms, share);
      assert r == EqualEntries(front, share) + [Entry(ms[n].id, share)];
      assert r[..n] == EqualEntries(front, share);
    }
  }

  /** `handleSplitChange`: nothing happens without an amount or without members;
      otherwise the form object becomes the equal split `amount / members.length`. */
  function SplitChange(prev: SplitValues, amountEntered: bool, amount: real, members: seq<Member>): SplitValues
  {
    if !amountEntered || |members| == 0 then prev
    else EqualEntries(members, amount / (|members| as real))
  }

  lemma SplitChangeShape(prev: SplitValues, amountEntered: bool, amount: real, members: seq<Member>)
    ensures !amountEntered || |members| == 0 ==> SplitChange(prev, amountEntered, amount, members) == prev
    ensures amountEntered && |members| > 0 ==>
      var r := SplitChange(prev, amountEntered, amount, members);
      (forall k :: HasKey(r, k) <==> k in IdSet(members))
      && forall i :: 0 <= i < |r| ==> r[i].value == amount / (|members| as real)
  {
    if amountEntered && |members| > 0 {
      EqualEntriesKeys(members, amount / (|members| as real));
      EqualEntriesValues(members, amount / (|members| as real));
    }
  }

  method HandleSplitChange(prev: SplitValues, amountEntered: bool, amount: real, members: seq<Member>)
    returns (updated: SplitValues)
    ensures updated == SplitChange(prev, amountEntered, amount, members)
  {
    if !amountEntered || |members| == 0 {
      return prev;
    }
    var equalSplit := amount / (|members| as real);
    var acc: SplitValues := [];
    for i := 0 to |members|
      invariant acc == EqualEntries(members[..i], equalSplit)
    {
      assert members[..i + 1][..i] == members[..i];
      acc := Put(acc, members[i].id, equalSplit);
    }
    assert members[..|members|] == members;
    updated := acc;
  }

  /** Arithmetic helper: `n` equal shares of `amount` make `amount`. */
  lemma SharesMakeAmount(n: real, amount: real)
    requires n > 0.0
    ensures n * (amount / n) == amount
  {
  }

  /** The object `handleSplitChange` stores holds money amounts, not percentages: its
      values add up to the amount. */
  lemma SplitChangeSumsToAmount(prev: SplitValues, amount: real, members: seq<Member>)
    requires |members| > 0 && DistinctIds(members)
    ensures SumValues(SplitChange(prev, true, amount, members)) == amount
  {
    var share := amount / (|members| as real);
    assert Copies(|members|, share) == amount by {
      CopiesIsProduct(|members|, share);
      SharesMakeAmount(|members| as real, amount);
    }
    EqualEntriesSum(members, share);
  }

  // ---- the two splits of handleCreateEvent ----

  /** The equal split: every member id owes `amount / members.length`; no members, no shares. */
  function EqualShares(members: seq<Member>, amount: real): map<string, real>
  {
    if |members| == 0 then map[]
    else map k | k in IdSet(members) :: amount / (|members| as real)
  }

  /** The `forEach` loop that fills `finalSplit` in the equal case. */
  method EqualSplit(members: seq<Member>, totalAmount: real) returns (finalSplit: map<string, real>)
    ensures finalSplit == EqualShares(members, totalAmount)
  {
    finalSplit := map[];
    if |members| == 0 {
      return;
    }
    var equalAmount := totalAmount / (|members| as real);
    for i := 0 to |members|
      invariant finalSplit.Keys == IdSet(members[..i])
      invariant forall k :: k in finalSplit ==> finalSplit[k] == equalAmount
    {
      assert members[..i + 1] == members[..i] + [members[i]];
      IdSetAppend(members[..i], members[i]);
      finalSplit := finalSplit[members[i].id := equalAmount];
    }
    assert members[..|members|] == members;
  }

  /** With at least one member and distinct member ids, the equal shares add up to the amount. */
  lemma EqualSharesSum(members: seq<Member>, amount: real)
    requires |members| > 0 && DistinctIds(members)
    ensures MapSum(EqualShares(members, amount)) == amount
  {
    var n := |members| as real;
    var m := EqualShares(members, amount);
    MapSumConstant(m, amount / n);
    IdSetSize(members);
    assert m.Keys == IdSet(members);
    assert |m| == |members|;
    assert n * (amount / n) == amount;
  }

  /** The share owed for a percentage: `(percent / 100) * amount`. */
  function PercentOf(percent: real, amount: real): real
  {
    (percent / 100.0) * amount
  }

  /** Percent shares distribute over the sum of the percentages. */
  lemma PercentOfAdd(s: real, v: real, amount: real)
    ensures PercentOf(s, amount) + PercentOf(v, amount) == PercentOf(s + v, amount)
  {
    assert (s / 100.0) * amount + (v / 100.0) * amount == (s / 100.0 + v / 100.0) * amount;
    assert s / 100.0 + v / 100.0 == (s + v) / 100.0;
  }

  /** `Object.fromEntries(Object.entries(splitValues).map(([id, p]) => [id, (p / 100) * amount]))`. */
  function PercentShares(es: SplitValues, amount: real): (m: map<string, real>)
    ensures forall k :: k in m <==> HasKey(es, k)
    ensures forall i :: 0 <= i < |es| ==>
      es[i].memberId in m && m[es[i].memberId] == PercentOf(es[i].value, amount)
  {
    if es == [] then map[]
    else
      var n := |es| - 1;
      var front: SplitValues := es[..n];
      assert forall j :: 0 <= j < n ==> front[j] == es[j];
      HasKeyLast(es);
      PercentShares(front, amount)[es[n].memberId := PercentOf(es[n].value, amount)]
  }

  /** The shares of the percentage split, added up property by property. */
  function SumOfPercents(es: seq<Entry>, amount: real): (t: real)
    ensures t == PercentOf(SumValues(es), amount)
  {
    if es == [] then 0.0
    else
      var front := es[..|es| - 1];
      PercentOfAdd(SumValues(front), es[|es| - 1].value, amount);
      SumOfPercents(front, amount) + PercentOf(es[|es| - 1].value, amount)
  }

  /** The percentage shares add up to (total percent / 100) times the amount. */
  lemma {:induction false} PercentSharesSum(es: SplitValues, amount: real)
    ensures MapSum(PercentShares(es, amount)) == PercentOf(SumValues(es), amount)
  {
    PercentSharesSumFold(es, amount);
  }

  lemma {:induction false} PercentSharesSumFold(es: SplitValues, amount: real)
    ensures MapSum(PercentShares(es, amount)) == SumOfPercents(es, amount)
  {
    if es != [] {
      var n := |es| - 1;
      var front: SplitValues := es[..n];
      var key, v := es[n].memberId, PercentOf(es[n].value, amount);
      PercentSharesSumFold(front, amount);
      var m0 := PercentShares(front, amount);
      assert PercentShares(es, amount) == m0[key := v];
      assert key !in m0 by {
        assert forall j :: 0 <= j < n ==> front[j].memberId != key;
      }
      MapSumAddKey(m0, key, v);
    }
  }

  // ---- handleCreateEvent ----

  /** The form state: `amountEntered` is `amount !== ''` and `amount` the parsed number. */
  datatype EventForm = EventForm(
    title: string,
    description: string,
    amountEntered: bool,
    amount: real,
    payer: string,
    splitType: SplitType,
    splitValues: SplitValues)

  /** `NoGroup` is the TypeError of reading `group.members` when the route's group is gone. */
  datatype CreateError = MissingFields | PercentageNot100 | NoGroup

  /** `!title.trim() || !description.trim() || !amount || !payer`. */
  predicate MissingRequired(f: EventForm)
  {
    IsBlank(f.title) || IsBlank(f.description) || !f.amountEntered || f.payer == ""
  }

  function NewEvent(f: EventForm, split: map<string, real>, id: string, timestamp: int): Event
  {
    Event(id, Trim(f.title), Trim(f.description), "General", f.amount, timestamp, f.payer, split)
  }

  /** What pressing "Create Event" does: an error, or the event that is added. */
  function CreateOutcome(group: Option<Group>, f: EventForm, id: string, timestamp: int): (r: Result<Event, CreateError>)
    ensures (r.Failure? && r.error.MissingFields?) <==> MissingRequired(f)
    ensures (r.Failure? && r.error.PercentageNot100?) <==>
      !MissingRequired(f) && f.splitType.Percentage? && SumValues(f.splitValues) != 100.0
    ensures (r.Failure? && r.error.NoGroup?) <==> !MissingRequired(f) && f.splitType.Equal? && group.None?
    ensures r.Success? ==>
      && r.value.id == id && r.value.timestamp == timestamp
      && r.value.title == Trim(f.title) && r.value.description == Trim(f.description)
      && r.value.category == "General" && r.value.amount == f.amount && r.value.payer == f.payer
    ensures r.Success? && f.splitType.Equal? ==>
      group.Some? && r.value.splitBetween == EqualShares(group.value.members, f.amount)
    ensures r.Success? && f.splitType.Percentage? ==>
      SumValues(f.splitValues) == 100.0 && r.value.splitBetween == PercentShares(f.splitValues, f.amount)
  {
    if MissingRequired(f) then Failure(MissingFields)
    else if f.splitType.Equal? then
      if group.None? then Failure(NoGroup)
      else Success(NewEvent(f, EqualShares(group.value.members, f.amount), id, timestamp))
    else if SumValues(f.splitValues) != 100.0 then Failure(PercentageNot100)
    else Success(NewEvent(f, PercentShares(f.splitValues, f.amount), id, timestamp))
  }

  /** A created event's shares add up to its amount (for an equal split this needs a
      non-empty member list with distinct ids). */
  lemma CreatedSharesSumToAmount(group: Option<Group>, f: EventForm, id: string, timestamp: int)
    requires CreateOutcome(group, f, id, timestamp).Success?
    requires f.splitType.Equal? ==> group.Some? && |group.value.members| > 0 && DistinctIds(group.value.members)
    ensures MapSum(CreateOutcome(group, f, id, timestamp).value.splitBetween) == f.amount
  {
    if f.splitType.Equal? {
      EqualSharesSum(group.value.members, f.amount);
    } else {
      PercentSharesSum(f.splitValues, f.amount);
    }
  }

  /** A created event's split names the group's members: in the equal case exactly
      them, in the percentage case the keys typed into the form. */
  lemma CreatedSplitKeys(group: Option<Group>, f: EventForm, id: string, timestamp: int)
    requires CreateOutcome(group, f, id, timestamp).Success?
    ensures f.splitType.Equal? ==>
      CreateOutcome(group, f, id, timestamp).value.splitBetween.Keys == IdSet(group.value.members)
    ensures f.splitType.Percentage? ==>
      forall k :: k in CreateOutcome(group, f, id, timestamp).value.splitBetween <==> HasKey(f.splitValues, k)
    ensures f.splitType.Percentage? && group.Some? && KeysAreMemberIds(f.splitValues, group.value.members) ==>
      CreateOutcome(group, f, id, timestamp).value.splitBetween.Keys <= IdSet(group.value.members)
  {
  }

  /** The equal split ignores whatever percentages were typed. */
  lemma EqualIgnoresTypedPercentages(group: Option<Group>, f: EventForm, other: SplitValues, id: string, timestamp: int)
    requires f.splitType.Equal?
    ensures CreateOutcome(group, f, id, timestamp) == CreateOutcome(group, f.(splitValues := other), id, timestamp)
  {
  }

  /** Switching to the percentage split right after `handleSplitChange` filled the form
      object: the values are still money amounts, so the percentage check passes exactly
      when the amount is 100. */
  lemma PercentageAfterSplitChange(group: Option<Group>, f: EventForm, prev: SplitValues, members: seq<Member>,
                                   id: string, timestamp: int)
    requires !MissingRequired(f) && f.splitType.Percentage?
    requires |members| > 0 && DistinctIds(members)
    requires f.splitValues == SplitChange(prev, true, f.amount, members)
    ensures CreateOutcome(group, f, id, timestamp).Success? <==> f.amount == 100.0
  {
    SplitChangeSumsToAmount(prev, f.amount, members);
  }

  /** `handleCreateEvent`, run against the store it reads the group from and writes to. */
  method HandleCreateEvent(store: Store, groupId: string, form: EventForm, id: string, timestamp: int)
    returns (outcome: Result<Event, CreateError>)
    modifies store
    ensures outcome == CreateOutcome(FindGroup(old(store.groups), groupId), form, id, timestamp)
    ensures outcome.Success? ==> store.groups == AppendEvent(old(store.groups), groupId, outcome.value)
    ensures outcome.Failure? ==> store.groups == old(store.groups)
  {
    var group := FindGroup(store.groups, groupId);
    if IsBlank(form.title) || IsBlank(form.description) || !form.amountEntered || form.payer == "" {
      return Failure(MissingFields);
    }
    var totalAmount := form.amount;
    var finalSplit: map<string, real>;
    if form.splitType.Equal? {
      if group.None? {
        return Failure(NoGroup);
      }
      finalSplit := EqualSplit(group.value.members, totalAmount);
    } else {
      var totalPercent := SumValues(form.splitValues);
      if totalPercent != 100.0 {
        return Failure(PercentageNot100);
      }
      finalSplit := PercentShares(form.splitValues, totalAmount);
    }
    var newEvent := NewEvent(form, finalSplit, id, timestamp);
    store.AddEvent(groupId, newEvent);
    return Success(newEvent);
  }
}
