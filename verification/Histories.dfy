/** What no interleaving of the server's children can undo: theorems over whole runs, forced or not. */
module Histories {
  import opened Records
  import opened Operations
  import opened Filters
  import opened Reservations

  lemma ExtendsIsTransitive(a: seq<Booking>, b: seq<Booking>, c: seq<Booking>)
    requires Extends(a, b) && Extends(b, c)
    ensures Extends(a, c)
  {}

  /** History is append-only: in every run every record keeps its position and all its fields but the status,
      and whatever an approval still holds in its hands agrees with the stored record. */
  lemma {:induction false} HistoryIsAppendOnly(s: State, ls: seq<Label>)
    requires Inv(s)
    ensures Extends(s.bookings, Run(s, ls).bookings)
    ensures s.clock <= Run(s, ls).clock
    ensures forall c :: c in Run(s, ls).flights && Run(s, ls).flights[c].ApproveSnapped? ==>
              Stored(Run(s, ls).bookings, Run(s, ls).flights[c].snap)
  {
    RunKeepsInv(s, ls);
    var t := Run(s, ls);
    assert forall c :: c in t.flights ==> FlightOk(t, t.flights[c]);
    if ls != [] {
      var n := |ls| - 1;
      HistoryIsAppendOnly(s, ls[..n]);
      RunKeepsInv(s, ls[..n]);
      StepExtends(Run(s, ls[..n]), ls[n]);
      ExtendsIsTransitive(s.bookings, Run(s, ls[..n]).bookings, t.bookings);
    } else {
      assert forall i :: 0 <= i < |s.bookings| ==> SameButStatus(s.bookings[i], s.bookings[i]);
    }
  }

  /** From an initial state, every stored booking has a non-empty whole-slot range and a room that exists,
      although the room was checked before the bookings lock was taken. */
  lemma StoredBookingsAreWellPlaced(s: State, ls: seq<Label>)
    requires Initial(s)
    ensures Located(Run(s, ls).bookings, Run(s, ls).rooms)
  {
    RunKeepsInv(s, ls);
  }

  // ---------- ids ----------

  /** The id of the next record does not wrap around. */
  predicate IdLeft(s: State, l: Label) {
    l.CommitCreate? && Enabled(s, l) && !HasConflict(s.bookings, s.flights[l.child].booking) ==>
      Greatest(s.bookings) < U32_MAX
  }

  /** Creating keeps ids unique and non-zero exactly while the greatest id is below 2^32-1;
      the new id is then above all the others. */
  lemma CreateKeepsIdsExactly(rs: seq<Booking>, b: Booking)
    requires UniqueIds(rs) && NonZeroIds(rs) && !HasConflict(rs, b)
    ensures var after := CreateIn(rs, b).0;
      && (UniqueIds(after) && NonZeroIds(after) <==> Greatest(rs) < U32_MAX)
      && (Greatest(rs) < U32_MAX ==> forall i :: 0 <= i < |rs| ==> rs[i].id < after[|rs|].id)
  {
    NewId(rs, b);
    var created, g := NewRecord(rs, b), Greatest(rs);
    var after := rs + [created];
    if g == U32_MAX {
      assert after[|rs|].id == 0;
    } else {
      assert forall i :: 0 <= i < |rs| ==> after[i].id == rs[i].id <= g < created.id;
    }
  }

  /** One step keeps all ids unique and non-zero if and only if it does not create past the last id. */
  lemma StepIdsExactly(s: State, l: Label)
    requires Inv(s) && UniqueIds(s.bookings) && NonZeroIds(s.bookings)
    ensures UniqueIds(Next(s, l).bookings) && NonZeroIds(Next(s, l).bookings) <==> IdLeft(s, l)
  {
    var t := Next(s, l);
    StepExtends(s, l);
    if l.CommitCreate? && Enabled(s, l) && !HasConflict(s.bookings, s.flights[l.child].booking) {
      CreateKeepsIdsExactly(s.bookings, s.flights[l.child].booking);
    } else {
      assert |t.bookings| == |s.bookings|;
      assert forall i :: 0 <= i < |s.bookings| ==>
        SameButStatus(s.bookings[i], t.bookings[i]) && t.bookings[i].id == s.bookings[i].id;
    }
  }

  lemma ZeroIdsStay(s: State, l: Label)
    requires Inv(s) && !(UniqueIds(s.bookings) && NonZeroIds(s.bookings))
    ensures !NonZeroIds(Next(s, l).bookings)
  {
    StepExtends(s, l);
    var i :| 0 <= i < |s.bookings| && s.bookings[i].id == 0;
    assert SameButStatus(s.bookings[i], Next(s, l).bookings[i]);
  }

  /** Over a whole run from an initial state, in every interleaving and over a file in any id order:
      ids end up unique and non-zero exactly when no step of the run created a record past the last id. */
  lemma {:induction false} RunIdsExactly(s: State, ls: seq<Label>)
    requires Initial(s)
    ensures UniqueIds(Run(s, ls).bookings) && NonZeroIds(Run(s, ls).bookings) <==> Throughout(s, ls, IdLeft)
  {
    if ls != [] {
      var m := |ls| - 1;
      var t := Run(s, ls[..m]);
      RunIdsExactly(s, ls[..m]);
      RunKeepsInv(s, ls[..m]);
      if UniqueIds(t.bookings) && NonZeroIds(t.bookings) {
        StepIdsExactly(t, ls[m]);
      } else {
        ZeroIdsStay(t, ls[m]);
      }
    }
  }

  /** What a caller can check beforehand: a run no longer than the ids left never runs out of them. */
  lemma {:induction false} ShortRunsKeepIds(s: State, ls: seq<Label>)
    requires Initial(s) && Greatest(s.bookings) + |ls| <= U32_MAX
    ensures UniqueIds(Run(s, ls).bookings) && NonZeroIds(Run(s, ls).bookings)
    ensures Greatest(Run(s, ls).bookings) <= Greatest(s.bookings) + |ls|
  {
    if ls != [] {
      var n := |ls| - 1;
      ShortRunsKeepIds(s, ls[..n]);
      RunKeepsInv(s, ls[..n]);
      StepIdsExactly(Run(s, ls[..n]), ls[n]);
      GreatestGrowsByOne(Run(s, ls[..n]), ls[n]);
    }
  }

  lemma GreatestGrowsByOne(s: State, l: Label)
    requires Inv(s)
    ensures Greatest(Next(s, l).bookings) <= Greatest(s.bookings) + 1
  {
    var rs, after := s.bookings, Next(s, l).bookings;
    StepExtends(s, l);
    forall i | 0 <= i < |after| ensures after[i].id <= Greatest(rs) + 1 {
      if i < |rs| {
        assert SameButStatus(rs[i], after[i]);
      } else {
        NewId(rs, s.flights[l.child].booking);
      }
    }
  }

  // ---------- two-phase approval ----------

  /** Labels of other children. */
  predicate Others(c: nat, ls: seq<Label>) {
    forall i :: 0 <= i < |ls| ==>
      match ls[i]
      case Tick(_) => true
      case NewRoom(_) => true
      case CheckCreate(d, _) => d != c
      case CommitCreate(d) => d != c
      case Snapshot(d, _) => d != c
      case CommitApprove(d) => d != c
      case RejectNow(d, _) => d != c
      case ForceNow(d, _, _) => d != c
      case CountPass(d, _) => d != c
      case SendPass(d) => d != c
  }

  lemma {:induction false} OthersLeaveFlight(s: State, c: nat, ls: seq<Label>)
    requires Others(c, ls) && c in s.flights
    ensures c in Run(s, ls).flights && Run(s, ls).flights[c] == s.flights[c]
  {
    if ls != [] {
      OthersLeaveFlight(s, c, ls[..|ls| - 1]);
    }
  }

  /** An approval that finds its booking linearizes at its commit: whatever the other children do between its two
      locked sections (forcing included), file and reply are those of one atomic approval of that id on the file as it
      is then, with the past-time test taken at the time of the snapshot.  One that does not is the atomic failure at
      the snapshot. */
  lemma TwoPhaseApproveLinearizes(s: State, c: nat, id: U32, ls: seq<Label>)
    requires Inv(s) && c !in s.flights && Others(c, ls)
    ensures Enabled(s, Snapshot(c, id)) ==>
      var t := Run(Next(s, Snapshot(c, id)), ls);
      && Enabled(t, CommitApprove(c))
      && (Next(t, CommitApprove(c)).bookings, Reply(t, CommitApprove(c)))
         == ApproveIn(t.bookings, ApproveRequest(id), s.clock)
      && Reply(t, CommitApprove(c)).id == id
    ensures !Enabled(s, Snapshot(c, id)) ==>
              ApproveIn(s.bookings, ApproveRequest(id), s.clock) == (s.bookings, ZERO_BOOKING)
  {
    if Enabled(s, Snapshot(c, id)) {
      var u := Next(s, Snapshot(c, id));
      var t := Run(u, ls);
      var snap := FindFirst(s.bookings, id);
      StepKeepsInv(s, Snapshot(c, id));
      OthersLeaveFlight(u, c, ls);
      RunKeepsInv(u, ls);
      HistoryIsAppendOnly(u, ls);
      assert Stored(t.bookings, snap) && snap.id == id;
      StoredIsFound(t.bookings, snap);
      ClientApproveOnlySweeps(t.bookings, id, snap);
      ClientApproveOnlySweeps(t.bookings, id, FindFirst(t.bookings, id));
    }
  }

  lemma StoredIsFound(rs: seq<Booking>, snap: Booking)
    requires DistinctIds(rs) && Stored(rs, snap)
    ensures IndexOfId(rs, snap.id) < |rs| && SameButStatus(FindFirst(rs, snap.id), snap)
  {}

  // ---------- count and send ----------

  /** If the other children have left file and clock alone, exactly as many records are sent as were announced. */
  lemma CountAgreesWithSend(s: State, c: nat, f: Filter, ls: seq<Label>)
    requires c !in s.flights && Others(c, ls)
    requires var t := Run(Next(s, CountPass(c, f)), ls); t.bookings == s.bookings && t.clock == s.clock
    ensures var t := Run(Next(s, CountPass(c, f)), ls);
      Enabled(t, SendPass(c)) && t.flights[c].filter == f && t.flights[c].count == |Sent(t, c)|
  {
    OthersLeaveFlight(Next(s, CountPass(c, f)), c, ls);
  }

  /** A list whose filter looks only at the fixed fields is never announced longer than what is then sent, whatever
      happens in between: the child's check after sending never fails. */
  lemma StableListsNeverFallShort(s: State, ls: seq<Label>, c: nat)
    requires Initial(s)
    ensures var t := Run(s, ls);
      Enabled(t, SendPass(c)) && Stable(t.flights[c].filter) ==> t.flights[c].count <= |Sent(t, c)|
  {
    RunKeepsInv(s, ls);
    var t := Run(s, ls);
    assert c in t.flights ==> FlightOk(t, t.flights[c]);
  }
}
