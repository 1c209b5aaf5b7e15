/** Order independence: what a list of approvals leaves in the file depends only on which bookings it approves. */
module Approvals {
  import opened Records
  import opened Operations
  import opened Reservations

  /** The approvals one after the other, each with a fresh snapshot, the clock standing still; failing ones included. */
  function ApproveAll(rs: seq<Booking>, ids: seq<U32>, now: nat): seq<Booking> {
    if ids == [] then rs
    else ApproveIn(ApproveAll(rs, ids[..|ids| - 1], now), ApproveRequest(ids[|ids| - 1]), now).0
  }

  /** The approval of this id succeeds. */
  predicate Succeeds(rs: seq<Booking>, id: U32, now: nat) {
    Approvable(FindFirst(rs, id), now)
  }

  function Approved(rs: seq<Booking>, ids: seq<U32>, now: nat): set<U32> {
    set id | id in ids && Succeeds(rs, id, now)
  }

  predicate ClashesWithMember(rs: seq<Booking>, b: Booking, members: set<U32>) {
    exists j :: 0 <= j < |rs| && rs[j].id in members && Clash(b, rs[j])
  }

  function ClosedRecord(rs: seq<Booking>, b: Booking, members: set<U32>): Booking {
    if b.id in members then b.(status := APPROVED)
    else if b.status == PENDING && ClashesWithMember(rs, b, members) then b.(status := REJECTED)
    else b
  }

  /** The closed form: members are approved, pending records clashing with a member are rejected, the rest is
      untouched. */
  function Closed(rs: seq<Booking>, members: set<U32>): (r: seq<Booking>)
    ensures |r| == |rs|
    ensures forall i :: 0 <= i < |rs| ==> r[i] == ClosedRecord(rs, rs[i], members)
  {
    seq(|rs|, i requires 0 <= i < |rs| => ClosedRecord(rs, rs[i], members))
  }

  lemma FindFirstInClosed(rs: seq<Booking>, members: set<U32>, id: U32)
    ensures IndexOfId(Closed(rs, members), id) == IndexOfId(rs, id)
    ensures FindFirst(Closed(rs, members), id).(status := APPROVED) == FindFirst(rs, id).(status := APPROVED)
  {}

  /** One more approval adds one more member. */
  lemma SweepClosed(rs: seq<Booking>, members: set<U32>, k: nat)
    requires DistinctIds(rs) && k < |rs| && rs[k].id != 0 && 0 !in members
    ensures Sweep(Closed(rs, members), rs[k].(status := APPROVED)) == Closed(rs, members + {rs[k].id})
  {}

  lemma OneMoreApproval(rs: seq<Booking>, members: set<U32>, id: U32, now: nat)
    requires DistinctIds(rs) && 0 !in members
    ensures ApproveIn(Closed(rs, members), ApproveRequest(id), now).0
         == Closed(rs, if Succeeds(rs, id, now) then members + {id} else members)
  {
    var before := Closed(rs, members);
    FindFirstInClosed(rs, members, id);
    var snap := FindFirst(before, id);
    assert Approvable(snap, now) <==> Succeeds(rs, id, now);
    if Succeeds(rs, id, now) {
      ClientApproveOnlySweeps(before, id, snap);
      SweepClosed(rs, members, IndexOfId(rs, id));
    }
  }

  lemma ApprovedSnoc(rs: seq<Booking>, front: seq<U32>, id: U32, now: nat)
    ensures Approved(rs, front + [id], now)
         == if Succeeds(rs, id, now) then Approved(rs, front, now) + {id} else Approved(rs, front, now)
  {}

  lemma ClosedOfNothing(rs: seq<Booking>, now: nat)
    ensures Closed(rs, Approved(rs, [], now)) == rs
  {}

  lemma ClosedFormStep(rs: seq<Booking>, front: seq<U32>, id: U32, now: nat)
    requires DistinctIds(rs) && ApproveAll(rs, front, now) == Closed(rs, Approved(rs, front, now))
    ensures ApproveAll(rs, front + [id], now) == Closed(rs, Approved(rs, front + [id], now))
  {
    assert (front + [id])[..|front|] == front;
    ApprovedSnoc(rs, front, id, now);
    OneMoreApproval(rs, Approved(rs, front, now), id, now);
  }

  /** Order independence: any list of approvals, with repetitions and failures, has the closed form of its members. */
  lemma {:induction false} ApprovalsHaveClosedForm(rs: seq<Booking>, ids: seq<U32>, now: nat)
    requires DistinctIds(rs)
    ensures ApproveAll(rs, ids, now) == Closed(rs, Approved(rs, ids, now))
  {
    if ids == [] {
      ClosedOfNothing(rs, now);
    } else {
      var front, id := ids[..|ids| - 1], ids[|ids| - 1];
      assert ids == front + [id];
      ApprovalsHaveClosedForm(rs, front, now);
      ClosedFormStep(rs, front, id, now);
    }
  }

  /** Two lists approving the same bookings leave the same file, in whatever order and however often. */
  lemma OrderDoesNotMatter(rs: seq<Booking>, ids1: seq<U32>, ids2: seq<U32>, now: nat)
    requires DistinctIds(rs) && Approved(rs, ids1, now) == Approved(rs, ids2, now)
    ensures ApproveAll(rs, ids1, now) == ApproveAll(rs, ids2, now)
  {
    ApprovalsHaveClosedForm(rs, ids1, now);
    ApprovalsHaveClosedForm(rs, ids2, now);
  }
}
