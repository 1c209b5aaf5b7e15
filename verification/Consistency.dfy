/** What holds in every force-free run of the shipped client: the booking rules themselves. */
module Consistency {
  import opened Records
  import opened Operations
  import opened Reservations

  predicate KnownStatuses(rs: seq<Booking>) {
    forall i :: 0 <= i < |rs| ==> rs[i].status == PENDING || rs[i].status == APPROVED || rs[i].status == REJECTED
  }

  predicate PendingClearOfApproved(rs: seq<Booking>) {
    forall i, j :: 0 <= i < |rs| && 0 <= j < |rs| && rs[i].status == PENDING && rs[j].status == APPROVED ==>
      !Clash(rs[i], rs[j])
  }

  predicate PendingDisjointPerUser(rs: seq<Booking>) {
    forall i, j :: 0 <= i < j < |rs| && rs[i].status == PENDING && rs[j].status == PENDING
                   && rs[i].username == rs[j].username ==>
      !Clash(rs[i], rs[j])
  }

  predicate NoDoubleBooking(rs: seq<Booking>) {
    forall i, j :: 0 <= i < j < |rs| && rs[i].status == APPROVED && rs[j].status == APPROVED ==> !Clash(rs[i], rs[j])
  }

  predicate Safe(rs: seq<Booking>) {
    KnownStatuses(rs) && PendingClearOfApproved(rs) && PendingDisjointPerUser(rs)
  }

  predicate ShippedFlights(s: State) {
    forall c :: c in s.flights && s.flights[c].CreateChecked? ==> s.flights[c].booking.status == PENDING
  }

  predicate ForceFreeLabel(l: Label) {
    Shipped(l) && !l.ForceNow?
  }

  lemma CreateKeepsSafe(rs: seq<Booking>, b: Booking)
    requires Safe(rs) && b.status == PENDING
    ensures Safe(CreateIn(rs, b).0)
  {}

  lemma RejectKeepsSafe(rs: seq<Booking>, id: U32, now: nat)
    requires Safe(rs)
    ensures Safe(RejectIn(rs, id, now).0)
  {}

  /** Holds from any stale snapshot and onto a record of any status. */
  lemma SweepKeepsSafe(rs: seq<Booking>, snap: Booking)
    requires Safe(rs) && DistinctIds(rs) && Stored(rs, snap)
    ensures Safe(Sweep(rs, snap.(status := APPROVED)))
  {}

  lemma StepKeepsSafe(s: State, l: Label)
    requires Inv(s) && ShippedFlights(s) && Safe(s.bookings) && ForceFreeLabel(l)
    ensures Safe(Next(s, l).bookings) && ShippedFlights(Next(s, l))
  {
    if Enabled(s, l) {
      match l {
        case CommitCreate(c) => CreateKeepsSafe(s.bookings, s.flights[c].booking);
        case RejectNow(c, id) => RejectKeepsSafe(s.bookings, id, s.clock);
        case CommitApprove(c) =>
          var snap := s.flights[c].snap;
          assert FlightOk(s, s.flights[c]);
          ClientApproveOnlySweeps(s.bookings, snap.id, snap);
          SweepKeepsSafe(s.bookings, snap);
        case _ =>
      }
    }
  }

  /** In every force-free interleaving of any number of children: no pending booking overlaps an approved one in the
      same room, and no two pending bookings of one user overlap in the same room. */
  lemma {:induction false} ForceFreeRunsStaySafe(s: State, ls: seq<Label>)
    requires Initial(s) && Safe(s.bookings) && ForceFree(ls)
    ensures Safe(Run(s, ls).bookings) && Inv(Run(s, ls)) && ShippedFlights(Run(s, ls))
  {
    RunKeepsInv(s, ls);
    if ls != [] {
      var n := |ls| - 1;
      ForceFreeRunsStaySafe(s, ls[..n]);
      StepKeepsSafe(Run(s, ls[..n]), ls[n]);
    }
  }

  // ---------- double booking ----------

  /** The guard an approval would need: its target clashes with no other approved booking. */
  predicate Clear(rs: seq<Booking>, id: U32) {
    forall i, j :: 0 <= i < |rs| && 0 <= j < |rs| && rs[i].id == id && rs[j].id != id && rs[j].status == APPROVED ==>
      !Clash(rs[i], rs[j])
  }

  lemma SweepDoubleBookingExactly(rs: seq<Booking>, snap: Booking)
    requires DistinctIds(rs) && Stored(rs, snap)
    ensures NoDoubleBooking(Sweep(rs, snap.(status := APPROVED))) <==> NoDoubleBooking(rs) && Clear(rs, snap.id)
  {}

  predicate CommitsClear(s: State, l: Label) {
    l.CommitApprove? && Enabled(s, l) ==> Clear(s.bookings, s.flights[l.child].snap.id)
  }

  lemma SameApprovedSameAnswer(rs: seq<Booking>, after: seq<Booking>)
    requires |rs| <= |after|
    requires forall i :: 0 <= i < |rs| ==>
               after[i] == rs[i] || (rs[i].status != APPROVED && after[i].status != APPROVED)
    requires forall i :: |rs| <= i < |after| ==> after[i].status != APPROVED
    ensures NoDoubleBooking(after) <==> NoDoubleBooking(rs)
  {
    if NoDoubleBooking(after) {
      forall i, j | 0 <= i < j < |rs| && rs[i].status == APPROVED && rs[j].status == APPROVED
        ensures !Clash(rs[i], rs[j])
      {
        assert after[i] == rs[i] && after[j] == rs[j];
      }
    }
  }

  /** Exact no-double-booking, one step: the approved bookings of each room are disjoint afterwards if and only if they
      were before and the step commits no approval onto a booking clashing with another approved one. */
  lemma StepDoubleBookingExactly(s: State, l: Label)
    requires Inv(s) && ShippedFlights(s) && ForceFreeLabel(l)
    ensures NoDoubleBooking(Next(s, l).bookings) <==> NoDoubleBooking(s.bookings) && CommitsClear(s, l)
  {
    var rs, after := s.bookings, Next(s, l).bookings;
    if l.CommitApprove? && Enabled(s, l) {
      var snap := s.flights[l.child].snap;
      assert FlightOk(s, s.flights[l.child]);
      ClientApproveOnlySweeps(rs, snap.id, snap);
      SweepDoubleBookingExactly(rs, snap);
    } else {
      SameApprovedSameAnswer(rs, after);
    }
  }

  /** Exact no-double-booking over whole force-free runs. */
  lemma {:induction false} RunDoubleBookingExactly(s: State, ls: seq<Label>)
    requires Initial(s) && Safe(s.bookings) && ForceFree(ls)
    ensures NoDoubleBooking(Run(s, ls).bookings)
       <==> NoDoubleBooking(s.bookings) && Throughout(s, ls, CommitsClear)
  {
    if ls != [] {
      var m := |ls| - 1;
      RunDoubleBookingExactly(s, ls[..m]);
      ForceFreeRunsStaySafe(s, ls[..m]);
      StepDoubleBookingExactly(Run(s, ls[..m]), ls[m]);
    }
  }

  /** The stored record an approval is about to overwrite. */
  function CommitTarget(s: State, c: nat): Booking
    requires c in s.flights && s.flights[c].ApproveSnapped?
  {
    FindFirst(s.bookings, s.flights[c].snap.id)
  }

  predicate SparesRejected(s: State, l: Label) {
    l.CommitApprove? && Enabled(s, l) ==> CommitTarget(s, l.child).status != REJECTED
  }

  lemma UnrejectedTargetIsClear(s: State, l: Label)
    requires Inv(s) && Safe(s.bookings) && NoDoubleBooking(s.bookings) && SparesRejected(s, l)
    ensures CommitsClear(s, l)
  {}

  /** A room is never double booked along a force-free run in which no approval commits onto a rejected booking. */
  lemma {:induction false} NoDoubleBookingWithoutResurrection(s: State, ls: seq<Label>)
    requires Initial(s) && Safe(s.bookings) && NoDoubleBooking(s.bookings) && ForceFree(ls)
    requires Throughout(s, ls, SparesRejected)
    ensures NoDoubleBooking(Run(s, ls).bookings)
  {
    if ls != [] {
      var m := |ls| - 1;
      NoDoubleBookingWithoutResurrection(s, ls[..m]);
      ForceFreeRunsStaySafe(s, ls[..m]);
      UnrejectedTargetIsClear(Run(s, ls[..m]), ls[m]);
      StepDoubleBookingExactly(Run(s, ls[..m]), ls[m]);
    }
  }

  // ---------- statuses only climb ----------

  function Rank(status: Byte): nat {
    if status == PENDING then 0 else if status == REJECTED then 1 else 2
  }

  predicate Climbs(earlier: seq<Booking>, later: seq<Booking>) {
    && |earlier| <= |later|
    && forall i :: 0 <= i < |earlier| ==>
         earlier[i].status == later[i].status || Rank(earlier[i].status) < Rank(later[i].status)
  }

  lemma StepClimbs(s: State, l: Label)
    requires Inv(s) && Safe(s.bookings) && ForceFreeLabel(l)
    ensures Climbs(s.bookings, Next(s, l).bookings)
  {}

  function RankSum(rs: seq<Booking>): (r: nat)
    ensures r <= 2 * |rs|
  {
    if rs == [] then 0 else RankSum(rs[..|rs| - 1]) + Rank(rs[|rs| - 1].status)
  }

  /** How many of the old records have another status in the new file. */
  function Changed(earlier: seq<Booking>, later: seq<Booking>): nat
    requires |earlier| <= |later|
  {
    if earlier == [] then 0
    else
      var n := |earlier| - 1;
      Changed(earlier[..n], later[..n]) + if earlier[n].status != later[n].status then 1 else 0
  }

  lemma {:induction false} ClimbingIsPaidFor(earlier: seq<Booking>, later: seq<Booking>)
    requires Climbs(earlier, later)
    ensures RankSum(earlier) + Changed(earlier, later) <= RankSum(later)
    decreases |later|
  {
    if later != [] {
      var n := |later| - 1;
      if |earlier| == |later| {
        ClimbingIsPaidFor(earlier[..n], later[..n]);
      } else {
        ClimbingIsPaidFor(earlier, later[..n]);
        ChangedIgnoresTail(earlier, later);
      }
    }
  }

  lemma ChangedIgnoresTail(earlier: seq<Booking>, later: seq<Booking>)
    requires |earlier| < |later|
    ensures Changed(earlier, later[..|later| - 1]) == Changed(earlier, later)
  {
    if earlier != [] {
      var n := |earlier| - 1;
      assert later[..|later| - 1][..n] == later[..n];
    }
  }

  function TotalChanges(s: State, ls: seq<Label>): nat {
    if ls == [] then 0
    else
      var t := Run(s, ls[..|ls| - 1]);
      var u := Next(t, ls[|ls| - 1]);
      TotalChanges(s, ls[..|ls| - 1]) + if |t.bookings| <= |u.bookings| then Changed(t.bookings, u.bookings) else 0
  }

  /** Along every force-free run statuses only climb PENDING, REJECTED, APPROVED: an approval is for ever, nothing
      becomes pending again, and the status changes of the whole run are at most two per record. */
  lemma {:induction false} StatusIsMonotone(s: State, ls: seq<Label>)
    requires Initial(s) && Safe(s.bookings) && ForceFree(ls)
    ensures Climbs(s.bookings, Run(s, ls).bookings)
    ensures RankSum(s.bookings) + TotalChanges(s, ls) <= RankSum(Run(s, ls).bookings)
    ensures TotalChanges(s, ls) <= 2 * |Run(s, ls).bookings|
  {
    if ls != [] {
      var n := |ls| - 1;
      var t := Run(s, ls[..n]);
      StatusIsMonotone(s, ls[..n]);
      ForceFreeRunsStaySafe(s, ls[..n]);
      StepClimbs(t, ls[n]);
      ClimbingIsPaidFor(t.bookings, Next(t, ls[n]).bookings);
    }
  }

  // ---------- bookings of the past ----------

  /** Approvals in flight are of bookings not over at time `from`, creations in flight begin no earlier. */
  predicate FlightsAfter(s: State, from: nat) {
    forall c :: c in s.flights ==>
      && (s.flights[c].ApproveSnapped? ==> from <= s.flights[c].snap.end)
      && (s.flights[c].CreateChecked? ==> from <= s.flights[c].booking.start)
  }

  lemma StepKeepsFlightsAfter(s: State, l: Label, from: nat)
    requires FlightsAfter(s, from) && from <= s.clock
    ensures FlightsAfter(Next(s, l), from)
  {}

  lemma {:induction false} RunKeepsFlightsAfter(s: State, ls: seq<Label>)
    requires Initial(s)
    ensures FlightsAfter(Run(s, ls), s.clock) && s.clock <= Run(s, ls).clock && Inv(Run(s, ls))
  {
    RunKeepsInv(s, ls);
    if ls != [] {
      RunKeepsFlightsAfter(s, ls[..|ls| - 1]);
      StepKeepsFlightsAfter(Run(s, ls[..|ls| - 1]), ls[|ls| - 1], s.clock);
      StepExtends(Run(s, ls[..|ls| - 1]), ls[|ls| - 1]);
    }
  }

  lemma SweepSparesThePast(rs: seq<Booking>, snap: Booking, from: nat, i: nat)
    requires DistinctIds(rs) && Stored(rs, snap) && from <= snap.end
    requires i < |rs| && rs[i].end < from && rs[i].status != APPROVED
    ensures Sweep(rs, snap.(status := APPROVED))[i].status != APPROVED
  {
    var j :| 0 <= j < |rs| && SameButStatus(rs[j], snap);
    assert rs[j].end == snap.end && rs[j].id == snap.id;
    assert rs[i].id != snap.id;
  }

  lemma StepSparesThePast(s: State, l: Label, from: nat, i: nat)
    requires Inv(s) && FlightsAfter(s, from) && ForceFreeLabel(l)
    requires i < |s.bookings| && s.bookings[i].end < from && s.bookings[i].status != APPROVED
    ensures i < |Next(s, l).bookings| && Next(s, l).bookings[i].end < from && Next(s, l).bookings[i].status != APPROVED
  {
    StepExtends(s, l);
    assert SameButStatus(s.bookings[i], Next(s, l).bookings[i]);
    if l.CommitApprove? && Enabled(s, l) {
      var snap := s.flights[l.child].snap;
      assert FlightOk(s, s.flights[l.child]);
      ClientApproveOnlySweeps(s.bookings, snap.id, snap);
      SweepSparesThePast(s.bookings, snap, from, i);
    }
  }

  /** A booking that was over when a force-free run began is never approved in it. */
  lemma {:induction false} PastBookingsAreNeverApproved(s: State, ls: seq<Label>, i: nat)
    requires Initial(s) && ForceFree(ls)
    requires i < |s.bookings| && s.bookings[i].end < s.clock && s.bookings[i].status != APPROVED
    ensures i < |Run(s, ls).bookings| && Run(s, ls).bookings[i].end < s.clock
    ensures Run(s, ls).bookings[i].status != APPROVED
  {
    if ls != [] {
      PastBookingsAreNeverApproved(s, ls[..|ls| - 1], i);
      RunKeepsFlightsAfter(s, ls[..|ls| - 1]);
      StepSparesThePast(Run(s, ls[..|ls| - 1]), ls[|ls| - 1], s.clock, i);
    }
  }

  /** No booking is created for a time before the run began, in any run. */
  lemma {:induction false} NewBookingsLieAhead(s: State, ls: seq<Label>, i: nat)
    requires Initial(s) && |s.bookings| <= i < |Run(s, ls).bookings|
    ensures s.clock <= Run(s, ls).bookings[i].start
  {
    if ls != [] {
      var t, l := Run(s, ls[..|ls| - 1]), ls[|ls| - 1];
      RunKeepsFlightsAfter(s, ls[..|ls| - 1]);
      StepExtends(t, l);
      if i < |t.bookings| {
        NewBookingsLieAhead(s, ls[..|ls| - 1], i);
        assert SameButStatus(t.bookings[i], Next(t, l).bookings[i]);
      } else {
        assert Next(t, l).bookings[i] == NewRecord(t.bookings, t.flights[l.child].booking);
      }
    }
  }
}
