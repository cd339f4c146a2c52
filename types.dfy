/** The ledger's records: members, expense events, payables and groups,
    plus the small Option/Result wrappers the handlers use. */
module Types {

  datatype Option<+T> = None | Some(value: T)

  datatype Result<+R, +E> = Success(value: R) | Failure(error: E)

  /** A person in a group; `id` is the identity, the other fields are display data. */
  datatype Member = Member(id: string, name: string, email: string, phone: string)

  /** An expense record. `timestamp` is a Date, kept as milliseconds since the epoch;
      `splitBetween` maps a member id to the amount that member owes for this event. */
  datatype Event = Event(
    id: string,
    title: string,
    description: string,
    category: string,
    amount: real,
    timestamp: int,
    payer: string,
    splitBetween: map<string, real>)

  /** "from owes to": a directed debt between two members. */
  datatype Payable = Payable(from: string, to: string, amount: real)

  datatype Group = Group(
    id: string,
    name: string,
    description: string,
    members: seq<Member>,
    events: seq<Event>,
    payable: seq<Payable>)

  /** The set of ids of a member list. */
  function IdSet(ms: seq<Member>): set<string>
  {
    set i | 0 <= i < |ms| :: ms[i].id
  }

  predicate DistinctIds(ms: seq<Member>)
  {
    forall i, j :: 0 <= i < j < |ms| ==> ms[i].id != ms[j].id
  }

  /** A member list with distinct ids has as many ids as members. */
  lemma {:induction false} IdSetSize(ms: seq<Member>)
    requires DistinctIds(ms)
    ensures |IdSet(ms)| == |ms|
  {
    if ms != [] {
      var n := |ms| - 1;
      var front := ms[..n];
      assert DistinctIds(front);
      IdSetSize(front);
      assert IdSet(ms) == IdSet(front) + {ms[n].id} by {
        forall k | k in IdSet(ms) ensures k in IdSet(front) + {ms[n].id} {
          var i :| 0 <= i < |ms| && ms[i].id == k;
          if i < n { assert front[i].id == k; }
        }
        forall k | k in IdSet(front) ensures k in IdSet(ms) {
          var i :| 0 <= i < |front| && front[i].id == k;
          assert ms[i].id == k;
        }
      }
      assert forall i :: 0 <= i < |front| ==> front[i].id != ms[n].id by {
        forall i | 0 <= i < |front| ensures front[i].id != ms[n].id {
          assert front[i] == ms[i];
        }
      }
    }
  }

  /** Adding a member adds its id to the id set. */
  lemma IdSetAppend(ms: seq<Member>, m: Member)
    ensures IdSet(ms + [m]) == IdSet(ms) + {m.id}
  {
    var all := ms + [m];
    assert all[|ms|] == m;
    forall k | k in IdSet(all) ensures k in IdSet(ms) + {m.id} {
      var i :| 0 <= i < |all| && all[i].id == k;
      if i < |ms| { assert ms[i].id == k; }
    }
    forall k | k in IdSet(ms) ensures k in IdSet(all) {
      var i :| 0 <= i < |ms| && ms[i].id == k;
      assert all[i].id == k;
    }
  }
}
