# Splits: a Dafny model of the group ledger

Splits is a small React Native expense-sharing app. Users keep groups of members,
and each group has a list of expense records ("events") and a list of debts
("payables"). This project models the app's logic in Dafny 4.11:

- **The group store** (`GroupStore`). The list of groups, and the eight store actions
  that rebuild it with `filter`, `map` and object spread. The list is the `groups`
  field of the class `GroupStore.Store`, and each action is a method that assigns it.
  Each new list is computed by a pure function, and the functions carry the
  "only the matching records change" contracts.
- **The create-event screen** (`CreateEvent`). The form's `splitValues` object,
  `handleSplitChange`, the percentage inputs, and `handleCreateEvent`:
  - validation;
  - the equal split, as a `forEach` loop over the members;
  - the percentage split, with its check that the total is exactly 100;
  - building the new event and appending it to the store.
- **The totals** (`Totals`). The three `reduce` folds of `calculateTotals`, and the
  totals of the sample groups.
- **The two edit screens** (`EditGroupScreen`, `EditEventScreen`). Each `handleSave`
  is a guarded command that ends in `editGroup` or `editEvent`.
- **Support modules**:
  - `Types`: the records of `types/index.ts`.
  - `GroupData`: the sample `dummyGroups`.
  - `JsText`: `String.prototype.trim`, using ECMAScript's whitespace and
    line-terminator code points.
  - `Lists`: `filter`, and `map` with a conditional callback.
  - `RealMaps`: the sum of a `splitBetween` mapping.

Amounts are JavaScript numbers in the app. Here they are `real`, so the arithmetic
facts are exact. The form's `splitValues` object is an association list with distinct
keys, kept in insertion order (`CreateEvent.SplitValues`). JavaScript lists keys that
are array indices (such as `"0"`) first, in numeric order. The app's member ids are
`'m1'`-style strings or 13-digit `Date.now()` strings, and neither is an array index,
so for them the object's key order is insertion order. This ordering makes
`Object.values(...).reduce` and `Object.entries(...).map` well defined.

Facts about the code that the proofs make explicit:

- **Duplicate ids.** Every store action matches *every* group with the given id.
  The edit-group screen passes a copy of the first match (`groups.find`), and
  `editGroup` writes it over all of them.
  With distinct ids this is exactly the edited group (`EditGroupScreen.SaveGroupWithDistinctIds`).
- **`splitValues` holds money after `handleSplitChange`.** That function fills
  `splitValues` with money amounts, `amount / members.length` each. The percentage
  branch reads those same values as percentages. Pressing "Equal" runs the pre-fill
  with the amount currently entered (app/CreateEvent.tsx:194-197). Switching to the
  percentage split straight after that, with at least one member and distinct member
  ids, is accepted exactly when the amount is 100 (`CreateEvent.PercentageAfterSplitChange`). The pre-fill made while typing the amount
  (app/CreateEvent.tsx:154-157) uses the previous amount instead; see "## Left out".
- **The percentage branch without a group.** `handleCreateEvent` reads `group` only in
  the equal branch. In the percentage branch with no group, the event is built, and
  `addEvent` then changes nothing (`CreateEvent.CreateOutcome`,
  `GroupStore.AppendEventUnknownGroup`). The screen itself could not render without a
  group.
- **A missing event still reports success.** The edit-event screen never checks that
  the event exists. An unknown event id reaches `editEvent`, which changes nothing
  (`EditEventScreen.SaveAbsentEvent`).
- **Payables are never recomputed.** No event action writes a group's `payable` list:
  see `SameExceptEvents` in the contracts of `AppendEvent`, `RemoveEvent` and
  `UpdateEvent`. `editGroup` writes only the payables of the record it is given. The
  edit-group screen passes the payables of the group it found, so with duplicate ids a
  later duplicate receives the first match's payables.
- **No settlement, no remainder policy.** The code computes no net balances and never
  recomputes payables; they are literal sample data. Shares are plain floating-point
  quotients, with no policy for the rounding leftover.

## Model

| member | source | states |
|---|---|---|
| GroupStore.Store.constructor | store/groupStore.ts:20-24 | The store starts with the sample groups. |
| GroupStore.Store.AddGroup | store/groupStore.ts:26-29 | The new list is the old list with the group appended at the end. |
| GroupStore.Store.RemoveGroup | store/groupStore.ts:31-34 | The new list is the old one without the groups with that id (`WithoutGroup`). |
| GroupStore.Store.ResetGroups | store/groupStore.ts:36 | The list becomes the sample groups, whatever it held before. |
| GroupStore.Store.AddEvent | store/groupStore.ts:38-45 | The new list is `AppendEvent` of the old list. |
| GroupStore.Store.DeleteGroup | store/groupStore.ts:47-50 | Same new list as `RemoveGroup`. |
| GroupStore.Store.EditGroup | store/groupStore.ts:52-57 | The new list is `ReplaceGroup` of the old list. |
| GroupStore.Store.DeleteEvent | store/groupStore.ts:59-66 | The new list is `RemoveEvent` of the old list. |
| GroupStore.Store.EditEvent | store/groupStore.ts:68-80 | The new list is `UpdateEvent` of the old list. |
| GroupStore.WithoutGroup | store/groupStore.ts:31-34 | Keeps the other groups in order (a subsequence), drops every group with that id, and keeps every group with another id as many times as it occurs. |
| GroupStore.RemoveGroupIdempotent | store/groupStore.ts:31-34 | Removing twice equals removing once, and afterwards no group has that id. |
| GroupStore.RemoveAbsentGroup | store/groupStore.ts:31-34 | Removing an id no group has leaves the list unchanged. |
| GroupStore.AddGroupFind | store/groupStore.ts:26-29 | After adding a group with a fresh id, looking up that id finds it. |
| GroupStore.AppendEvent | store/groupStore.ts:38-45 | Same number of groups. A matching group's events gain the event at the end. Its id, name, description, members and payables stay. Other groups are unchanged. |
| GroupStore.AppendEventUnknownGroup | store/groupStore.ts:38-45 | `addEvent` with an unknown group id leaves the list unchanged. |
| GroupStore.AppendEventTotals | store/groupStore.ts:38-45 | `addEvent` raises the group's `totalAmount` by the event's amount and leaves `totalOwed` as it was. |
| GroupStore.ReplaceGroup | store/groupStore.ts:52-57 | Same number of groups. Every group with the id becomes the given record, and the others are unchanged. |
| GroupStore.WithoutEvent | store/groupStore.ts:63 | Keeps the other events in order, drops every event with that id, and keeps every other event as many times as it occurs. |
| GroupStore.RemoveEvent | store/groupStore.ts:59-66 | Same number of groups. A matching group's events become `WithoutEvent` of its events, with its other fields unchanged. Other groups are unchanged. |
| GroupStore.RemoveEventIdempotent | store/groupStore.ts:59-66 | Deleting an event twice equals deleting it once. |
| GroupStore.MergeFullOrEmpty | store/groupStore.ts:75 | Spreading a complete event replaces the event. Spreading an empty patch keeps it. |
| GroupStore.MergeEventFields | store/groupStore.ts:75 | For each field, a field in the patch is overwritten and a field missing from it keeps its old value. |
| GroupStore.PatchEvents | store/groupStore.ts:74-76 | Same number and order of events. Exactly the events with the id are merged with the patch. |
| GroupStore.UpdateEvent | store/groupStore.ts:68-80 | Same number of groups. A matching group's events are `PatchEvents` of its events, with its other fields unchanged. Other groups are unchanged. |
| GroupStore.UpdateAbsentEvent | store/groupStore.ts:68-80 | Editing an event id the group does not contain leaves the list unchanged. |
| GroupStore.UpdateEventIdempotent | store/groupStore.ts:68-80 | Applying the same patch twice equals applying it once, for every patch, including one that renames the event. |
| GroupStore.UpdateEventKeepsTotals | store/groupStore.ts:68-80 | A patch without amount and payer leaves every group's totals unchanged. |
| GroupStore.FindGroup | app/EditGroup.tsx:12 | `groups.find`: a group it yields has the id and is the first group in the list with that id. When it yields none, no group has the id. |
| GroupStore.MergeEvent | store/groupStore.ts:75 | `{ ...event, ...updatedEvent }`, field by field (its properties: `MergeEventFields`, `MergeFullOrEmpty`). |
| GroupStore.IndexOfGroup | app/EditGroup.tsx:12 | The position of the first group with the id, or the length when there is none. |
| GroupStore.FindGroupIffPresent | app/EditGroup.tsx:12 | `groups.find` yields a group exactly when some group has the id, and the group it yields has that id. |
| Lists.Filter | store/groupStore.ts:33 | `filter` returns a subsequence: only accepted elements, and every accepted element. |
| Lists.FilterCounts | store/groupStore.ts:33 | `filter` keeps every accepted element exactly as often as it occurs, and drops every other element. |
| Lists.FilterIdempotent | store/groupStore.ts:33 | Filtering twice by the same predicate equals filtering once. |
| Lists.MapWhere | store/groupStore.ts:40-44 | The conditional `map` keeps the length and rewrites exactly the selected elements. |
| Lists.MapWhereNoneSelected | store/groupStore.ts:40-44 | A conditional `map` that selects nothing returns the list unchanged. |
| GroupData.DummyGroups | constants/groupData.ts:3-62 | The sample groups, with every `new Date()` read as one instant (its totals: `Totals.DummyGroupTotals`). |
| Totals.TotalOwed | utils/calculateTotals.ts:5 | The left fold of the payable amounts (its property: `GroupStore.AppendEventTotals`). |
| Totals.TotalPaid | utils/calculateTotals.ts:6-9 | The left fold of the amounts paid by `'m1'` (its properties: `PaidAtMostTotal`, `PaidIsTotalOfOwnEvents`, `TotalPaidConcat`). |
| Totals.TotalAmount | utils/calculateTotals.ts:4 | The event total is non-negative when every amount is. |
| Totals.CalculateTotals | utils/calculateTotals.ts:3-11 | With non-negative amounts, `0 <= totalPaid <= totalAmount`. |
| Totals.PaidAtMostTotal | utils/calculateTotals.ts:4-9 | The inductive proof of `0 <= totalPaid <= totalAmount`. |
| Totals.EmptyGroupTotals | utils/calculateTotals.ts:3-11 | A group with no events and no payables has all three totals equal to 0. |
| Totals.TotalAmountAppend | utils/calculateTotals.ts:4-9 | Appending an event adds its amount to `totalAmount`. It adds the amount to `totalPaid` exactly when the payer is `'m1'`. |
| Totals.TotalAmountConcat | utils/calculateTotals.ts:4 | `totalAmount` is a sum: it splits over concatenation. |
| Totals.TotalPaidConcat | utils/calculateTotals.ts:6-9 | `totalPaid` splits over concatenation. |
| Totals.PaidIsTotalOfOwnEvents | utils/calculateTotals.ts:6-9 | `totalPaid` equals the `totalAmount` of the events filtered to payer `'m1'`. |
| Totals.TotalsOnlyReadAmountAndPayer | utils/calculateTotals.ts:4-9 | Two event lists that agree position by position on amount and payer have the same `totalAmount` and `totalPaid`. |
| Totals.AllPaidByCurrentUser | utils/calculateTotals.ts:6-9 | If `'m1'` paid every event, `totalPaid == totalAmount`. |
| Totals.DummyGroupTotals | constants/groupData.ts:3-62 | The sample groups total (2800, 200, 2000) and (1000, 500, 1000). |
| JsText.Trim | app/CreateEvent.tsx:56 | `trim` drops only whitespace, and the result does not start or end with whitespace. |
| JsText.IsBlank | app/CreateEvent.tsx:56 | `!s.trim()` (its characterisation: `BlankIffAllWhitespace`). |
| JsText.BlankIffAllWhitespace | app/CreateEvent.tsx:56 | `!s.trim()` holds exactly when every character is whitespace. |
| JsText.TrimIdempotent | app/EditGroup.tsx:31 | Trimming twice equals trimming once. |
| CreateEvent.Put | app/CreateEvent.tsx:242-247 | `{ ...prev, [key]: value }`: an existing key keeps its place, and a new key is appended. Afterwards the key maps to the value and every other key is unchanged. |
| CreateEvent.Lookup | app/CreateEvent.tsx:242-247 | A lookup finds a value exactly when the key is present, and that value is the key's value. |
| CreateEvent.SumValues | app/CreateEvent.tsx:70 | `Object.values(splitValues).reduce((a, b) => a + b, 0)` (its properties: `EqualEntriesSum`, `PercentSharesSum`). |
| CreateEvent.EnterPercent | app/CreateEvent.tsx:242-247 | Typing in a percentage stores the parsed number, or 0 when it does not parse, under that member. No other key changes. |
| CreateEvent.EnterPercentKeepsMemberKeys | app/CreateEvent.tsx:231-247 | The percentage inputs only ever write keys that are member ids. |
| CreateEvent.EqualEntries | app/CreateEvent.tsx:48-51 | The `reduce` pre-fill (its properties: `EqualEntriesKeys`, `EqualEntriesValues`, `EqualEntriesOrder`, `EqualEntriesSum`). |
| CreateEvent.EqualEntriesKeys | app/CreateEvent.tsx:48-51 | The `reduce` pre-fill has exactly the member ids as keys. |
| CreateEvent.EqualEntriesValues | app/CreateEvent.tsx:48-51 | Every value of the pre-fill is the equal share. |
| CreateEvent.EqualEntriesOrder | app/CreateEvent.tsx:48-51 | With distinct ids, the pre-fill has one key per member, in member order. |
| CreateEvent.EqualEntriesSum | app/CreateEvent.tsx:48-51 | With distinct ids, the pre-fill's values add up to one share per member. |
| CreateEvent.CopiesIsProduct | app/CreateEvent.tsx:47 | Arithmetic helper of `SplitChangeSumsToAmount`: a share added up `k` times is `k` times the share. |
| CreateEvent.SharesMakeAmount | app/CreateEvent.tsx:47 | Arithmetic helper of `SplitChangeSumsToAmount`: `n * (amount / n) == amount` for `n > 0`. |
| CreateEvent.SplitChange | app/CreateEvent.tsx:45-53 | `handleSplitChange`'s new `splitValues` (its properties: `SplitChangeShape`, `SplitChangeSumsToAmount`). |
| CreateEvent.SplitChangeShape | app/CreateEvent.tsx:45-53 | With no amount or no members, nothing changes. Otherwise the result's keys are exactly the member ids, each with `amount / members.length`. |
| CreateEvent.HandleSplitChange | app/CreateEvent.tsx:45-53 | The `reduce` loop computes `SplitChange`. |
| CreateEvent.SplitChangeSumsToAmount | app/CreateEvent.tsx:45-53 | With at least one member and distinct member ids, the pre-filled values are money amounts that add up to the amount, so they total 100 only when the amount is 100. |
| CreateEvent.EqualShares | app/CreateEvent.tsx:64-68 | The equal split (its properties: `EqualSharesSum`, `CreatedSplitKeys`). |
| CreateEvent.EqualSplit | app/CreateEvent.tsx:64-68 | The `forEach` loop computes `EqualShares`: every member id maps to `amount / members.length`, and no members means no shares. |
| CreateEvent.EqualSharesSum | app/CreateEvent.tsx:65-67 | With at least one member and distinct ids, the equal shares add up to the amount. |
| CreateEvent.PercentOf | app/CreateEvent.tsx:79 | `(percent / 100) * totalAmount` (its property: `PercentOfAdd`). |
| CreateEvent.PercentOfAdd | app/CreateEvent.tsx:79 | Arithmetic helper of `SumOfPercents`: `(p/100)*amount` distributes over adding percentages. |
| CreateEvent.PercentShares | app/CreateEvent.tsx:76-81 | The keys are exactly those of `splitValues`, and each maps to `(percent/100) * amount`. |
| CreateEvent.SumOfPercents | app/CreateEvent.tsx:76-81 | Adding up the percentage shares gives (total percent / 100) times the amount. |
| CreateEvent.PercentSharesSum | app/CreateEvent.tsx:70-81 | The percentage shares add up to (sum of `splitValues` / 100) times the amount. |
| CreateEvent.PercentSharesSumFold | app/CreateEvent.tsx:76-81 | The mapping's sum equals the share-by-share fold. |
| CreateEvent.MissingRequired | app/CreateEvent.tsx:56 | `!title.trim() \|\| !description.trim() \|\| !amount \|\| !payer` (its use: `CreateOutcome`). |
| CreateEvent.NewEvent | app/CreateEvent.tsx:84-93 | The new event record (its fields are stated by `CreateOutcome`). |
| CreateEvent.CreateOutcome | app/CreateEvent.tsx:55-93 | Rejects with MissingFields exactly when title or description is blank, the amount is empty or no payer is chosen. Rejects with PercentageNot100 exactly in the percentage case with a total other than 100. Rejects with NoGroup exactly in the equal case without a group. Otherwise yields the event with the given id and timestamp, trimmed title and description, category `'General'`, the form's amount and payer, and the equal or percentage shares. |
| CreateEvent.CreatedSharesSumToAmount | app/CreateEvent.tsx:64-81 | A created event's shares add up to its amount. The equal case needs at least one member, since no members give `{}`, which sums to 0, and distinct member ids. |
| CreateEvent.CreatedSplitKeys | app/CreateEvent.tsx:64-81 | Equal split: the keys are the member ids. Percentage split: the keys are exactly the typed keys, and so member ids when the typed keys are. |
| CreateEvent.EqualIgnoresTypedPercentages | app/CreateEvent.tsx:64-68 | The equal split gives the same outcome whatever `splitValues` holds. |
| CreateEvent.PercentageAfterSplitChange | app/CreateEvent.tsx:45-74 | With at least one member and distinct member ids, the percentage check after the equal pre-fill passes exactly when the amount is 100. |
| CreateEvent.HandleCreateEvent | app/CreateEvent.tsx:55-98 | The outcome is `CreateOutcome` for the group found by id. On success, the store becomes `AppendEvent` with the new event. On rejection, the store is unchanged. |
| EditGroupScreen.Renamed | app/EditGroup.tsx:29-33 | `{ ...group, name: trimmed, description: trimmed }` (its fields are stated by `SaveGroup`). |
| EditGroupScreen.SaveGroup | app/EditGroup.tsx:18-35 | Rejects with NameRequired exactly when the name is blank. Rejects with GroupNotFound exactly when the name is not blank and no group has the id. On success: same count, other groups unchanged, and each matching group gets the id, the trimmed name and description, and the members, events and payables of the group found. |
| EditGroupScreen.SaveGroupWithDistinctIds | app/EditGroup.tsx:29-35 | With distinct ids, the edited group changes in name and description only. |
| EditGroupScreen.SavedNameIsTrimmed | app/EditGroup.tsx:31 | A saved name is not blank, and trimming it again changes nothing. |
| EditGroupScreen.SaveGroupKeepsTotals | app/EditGroup.tsx:29-35 | With distinct ids, editing a group leaves every group's totals unchanged. |
| EditGroupScreen.HandleSave | app/EditGroup.tsx:18-38 | On rejection the store is unchanged. On success the store is `ReplaceGroup` with the updated group, which equals `SaveGroup`. |
| EditEventScreen.TextPatch | app/EditEvent.tsx:24 | The partial record `{ title, description }`, both trimmed (its effect: `MergeText`). |
| EditEventScreen.MergeText | app/EditEvent.tsx:24 | Spreading the text patch changes title and description only. |
| EditEventScreen.SaveEvent | app/EditEvent.tsx:18-24 | Rejects exactly when the title is blank. On success: same number of groups, other groups unchanged, and same number and order of events. Exactly the events with the id change, and only in title and description, which become the trimmed inputs. |
| EditEventScreen.SaveEventKeepsTotals | app/EditEvent.tsx:24 | Editing an event's text leaves every group's totals unchanged. |
| EditEventScreen.SaveAbsentEvent | app/EditEvent.tsx:24 | An event id that the group does not contain, or a group that is gone, leaves the list unchanged and, with a non-blank title, still counts as success. |
| EditEventScreen.SaveEventIdempotent | app/EditEvent.tsx:24 | Saving twice with the same text equals saving once. |
| EditEventScreen.HandleSave | app/EditEvent.tsx:18-27 | It rejects exactly when `SaveEvent` does, and then the store is unchanged. On success the store becomes the `SaveEvent` list. |

## Left out

- Rendering, styling, navigation and the `Alert` calls. Rejections become error values instead.
- Persistence through AsyncStorage, rehydration, and the `isHydrated` flag (store/groupStore.ts:82-90). These are I/O middleware.
- `Date.now()` ids and `new Date()` timestamps. The created event's id and timestamp are parameters. The sample data's `new Date()` values are one instant, `loadedAt`.
- `parseFloat`. The amount field is a "non-empty" flag plus the parsed `real`. A percentage input is the parsed value, or `None` when it does not parse.
- CreateEvent.CreateOutcome: a non-empty amount that parses to NaN is not modelled; the model treats every non-empty amount as a number.
- IEEE floating point. Arithmetic is exact `real` arithmetic, and `totalPercent !== 100` is exact inequality.
- React state scheduling. The model does not capture stale closure values, such as `handleSplitChange` reading the previous `amount` right after `setAmount`. Each handler gets the form values it reads as parameters.
- The `group` a screen captured at render time. The handlers look the group up in the store when they run.
- CreateEvent.EqualSharesSum: needs at least one member and distinct member ids. With no members the mapping is `{}`, which sums to 0. With a repeated id, the mapping has fewer keys than `members.length`, so the shares no longer add up to a non-zero amount.
- CreateEvent.EqualEntriesOrder: needs distinct member ids, for the same reason.
- EditGroupScreen.SaveGroupWithDistinctIds: needs distinct group ids. Otherwise every duplicate receives a copy of the first match.
- A settlement engine, net balances, and a remainder policy for shares. The code has none, so they are not modelled.
