/** A list is counted in one locked section and sent in another.  How far the two passes agree, exactly, whatever has
    happened to the bookings file and the clock in between. */
module Listings {
  import opened Records
  import opened Filters
  import opened Reservations
  import opened Histories

  // ---------- two passes over two files ----------

  /** The positions of the matching records. */
  function Positions(rs: seq<Booking>, f: Filter, clocks: seq<nat>): set<nat>
    requires |clocks| == |rs|
  {
    set i: nat | i < |rs| && Matches(f, rs[i], clocks[i])
  }

  lemma PositionsSnoc(rs: seq<Booking>, f: Filter, clocks: seq<nat>, n: nat)
    requires |clocks| == |rs| == n + 1
    ensures Positions(rs, f, clocks)
         == Positions(rs[..n], f, clocks[..n]) + if Matches(f, rs[n], clocks[n]) then {n} else {}
  {
    forall i: nat | i < n
      ensures i in Positions(rs, f, clocks) <==> i in Positions(rs[..n], f, clocks[..n])
    {
      assert rs[..n][i] == rs[i] && clocks[..n][i] == clocks[i];
    }
  }

  lemma {:induction false} PositionsCount(rs: seq<Booking>, f: Filter, clocks: seq<nat>)
    requires |clocks| == |rs|
    ensures |Positions(rs, f, clocks)| == |Matching(rs, f, clocks)|
  {
    if rs != [] {
      var n := |rs| - 1;
      PositionsCount(rs[..n], f, clocks[..n]);
      PositionsSnoc(rs, f, clocks, n);
      assert n !in Positions(rs[..n], f, clocks[..n]);
    }
  }

  /** Counted in the first pass, but not sent in the second. */
  function Leavers(rs1: seq<Booking>, c1: seq<nat>, rs2: seq<Booking>, c2: seq<nat>, f: Filter): set<nat>
    requires |c1| == |rs1| && |c2| == |rs2|
  {
    Positions(rs1, f, c1) - Positions(rs2, f, c2)
  }

  /** Sent in the second pass without having been counted in the first. */
  function Joiners(rs1: seq<Booking>, c1: seq<nat>, rs2: seq<Booking>, c2: seq<nat>, f: Filter): set<nat>
    requires |c1| == |rs1| && |c2| == |rs2|
  {
    Positions(rs2, f, c2) - Positions(rs1, f, c1)
  }

  /** Conservation: what was counted and what joined is what was sent and what left.  Any two files, any clocks. */
  lemma CountedAndJoinedIsSentAndLeft(rs1: seq<Booking>, c1: seq<nat>, rs2: seq<Booking>, c2: seq<nat>, f: Filter)
    requires |c1| == |rs1| && |c2| == |rs2|
    ensures |Matching(rs1, f, c1)| + |Joiners(rs1, c1, rs2, c2, f)|
         == |Matching(rs2, f, c2)| + |Leavers(rs1, c1, rs2, c2, f)|
  {
    var p1, p2 := Positions(rs1, f, c1), Positions(rs2, f, c2);
    PositionsCount(rs1, f, c1);
    PositionsCount(rs2, f, c2);
    assert p1 == p1 * p2 + (p1 - p2) && p2 == p1 * p2 + (p2 - p1);
  }

  // ---------- why records leave and join ----------

  /** The filter's list starts at the current time. */
  predicate FromNow(f: Filter) {
    !Stable(f)
  }

  /** From the current time on, but looking only at fields no operation ever changes. */
  predicate FixedFromNow(f: Filter) {
    f.OwnFromNow? || f.UsernameSubstringFromNow? || f.RoomFromNow?
  }

  /** The part of a filter that looks at the status. */
  predicate StatusFits(f: Filter, status: Byte) {
    match f
    case RoomFromNowNotRejected(_) => status != REJECTED
    case StatusFromNow(wanted) => status == wanted
    case StatusFromNowOf(wanted, _) => status == wanted
    case _ => true
  }

  /** A counted record left: it ended, or its status is no longer one listed. */
  predicate Leaves(f: Filter, before: Booking, counted: nat, after: Booking, sent: nat) {
    Matches(f, before, counted) && ((FromNow(f) && InPast(before, sent)) || !StatusFits(f, after.status))
  }

  /** An old record joined: its status is one listed now. */
  predicate Turns(f: Filter, before: Booking, after: Booking, sent: nat) {
    Matches(f, after, sent) && !StatusFits(f, before.status)
  }

  lemma RecordLeavesOrTurns(f: Filter, before: Booking, counted: nat, after: Booking, sent: nat)
    requires SameButStatus(before, after) && counted <= sent
    ensures Matches(f, before, counted) && !Matches(f, after, sent) <==> Leaves(f, before, counted, after, sent)
    ensures Matches(f, after, sent) && !Matches(f, before, counted) <==> Turns(f, before, after, sent)
  {}

  /** Counted records leave a list for two reasons only: they end, or their status changes away from the ones listed.
      Others join it for two reasons only: they are new, or their status changes to one listed. */
  lemma LeaversAndJoinersExactly(rs1: seq<Booking>, c1: seq<nat>, rs2: seq<Booking>, c2: seq<nat>, f: Filter, i: nat)
    requires Extends(rs1, rs2) && |c1| == |rs1| && |c2| == |rs2|
    requires i < |rs1| ==> c1[i] <= c2[i]
    ensures i in Leavers(rs1, c1, rs2, c2, f) <==> i < |rs1| && Leaves(f, rs1[i], c1[i], rs2[i], c2[i])
    ensures i in Joiners(rs1, c1, rs2, c2, f) <==>
              i < |rs2| && if i < |rs1| then Turns(f, rs1[i], rs2[i], c2[i]) else Matches(f, rs2[i], c2[i])
  {
    if i < |rs1| { RecordLeavesOrTurns(f, rs1[i], c1[i], rs2[i], c2[i]); }
  }

  lemma StableRecord(f: Filter, before: Booking, counted: nat, after: Booking, sent: nat)
    requires Stable(f) && SameButStatus(before, after)
    ensures Matches(f, before, counted) <==> Matches(f, after, sent)
  {}

  lemma StableJoinersAreNew(rs1: seq<Booking>, c1: seq<nat>, rs2: seq<Booking>, c2: seq<nat>, f: Filter, i: nat)
    requires Extends(rs1, rs2) && Stable(f) && |c1| == |rs1| && |c2| == |rs2|
    ensures i !in Leavers(rs1, c1, rs2, c2, f)
    ensures i in Joiners(rs1, c1, rs2, c2, f) <==> |rs1| <= i < |rs2| && Matches(f, rs2[i], c2[i])
  {
    if i < |rs1| { StableRecord(f, rs1[i], c1[i], rs2[i], c2[i]); }
  }

  lemma StableListsAreLeftByNone(rs1: seq<Booking>, c1: seq<nat>, rs2: seq<Booking>, c2: seq<nat>, f: Filter)
    requires Extends(rs1, rs2) && Stable(f) && |c1| == |rs1| && |c2| == |rs2|
    ensures Leavers(rs1, c1, rs2, c2, f) == {}
  {
    forall i: nat ensures i !in Leavers(rs1, c1, rs2, c2, f) {
      StableJoinersAreNew(rs1, c1, rs2, c2, f, i);
    }
  }

  predicate NoneIsNew(n: nat, rs2: seq<Booking>, c2: seq<nat>, f: Filter)
    requires n <= |rs2| == |c2|
  {
    forall i :: n <= i < |rs2| ==> !Matches(f, rs2[i], c2[i])
  }

  lemma StableListsAreJoinedByNoneExactly(rs1: seq<Booking>, c1: seq<nat>, rs2: seq<Booking>, c2: seq<nat>, f: Filter)
    requires Extends(rs1, rs2) && Stable(f) && |c1| == |rs1| && |c2| == |rs2|
    ensures Joiners(rs1, c1, rs2, c2, f) == {} <==> NoneIsNew(|rs1|, rs2, c2, f)
  {
    var joiners := Joiners(rs1, c1, rs2, c2, f);
    if joiners == {} {
      forall i: nat | |rs1| <= i < |rs2| ensures !Matches(f, rs2[i], c2[i]) {
        StableJoinersAreNew(rs1, c1, rs2, c2, f, i);
      }
    } else {
      var i: nat :| i in joiners;
      StableJoinersAreNew(rs1, c1, rs2, c2, f, i);
    }
  }

  /** A stable list has the announced length if and only if no record appended in between belongs to it. */
  lemma StableListsAgreeExactly(rs1: seq<Booking>, c1: seq<nat>, rs2: seq<Booking>, c2: seq<nat>, f: Filter)
    requires Extends(rs1, rs2) && Stable(f) && |c1| == |rs1| && |c2| == |rs2|
    ensures |Matching(rs2, f, c2)| == |Matching(rs1, f, c1)| <==> NoneIsNew(|rs1|, rs2, c2, f)
  {
    CountedAndJoinedIsSentAndLeft(rs1, c1, rs2, c2, f);
    StableListsAreLeftByNone(rs1, c1, rs2, c2, f);
    StableListsAreJoinedByNoneExactly(rs1, c1, rs2, c2, f);
  }

  // ---------- exactly when a list falls short ----------

  /** The second pass comes after the first: the file has only grown and changed statuses, and the clock did not go
      back.  Each pass reads the clock at every record. */
  predicate Later(rs1: seq<Booking>, c1: seq<nat>, rs2: seq<Booking>, c2: seq<nat>) {
    && Extends(rs1, rs2) && |c1| == |rs1| && |c2| == |rs2|
    && forall i :: 0 <= i < |rs1| ==> c1[i] <= c2[i]
  }

  /** What the two sets are: every record left or joined for the reasons above. */
  ghost predicate Explained(rs1: seq<Booking>, c1: seq<nat>, rs2: seq<Booking>, c2: seq<nat>, f: Filter)
    requires |rs1| <= |rs2| && |c1| == |rs1| && |c2| == |rs2|
  {
    && (forall i :: i in Leavers(rs1, c1, rs2, c2, f) <==>
          0 <= i < |rs1| && Leaves(f, rs1[i], c1[i], rs2[i], c2[i]))
    && (forall i :: i in Joiners(rs1, c1, rs2, c2, f) && i < |rs1| <==>
          0 <= i < |rs1| && Turns(f, rs1[i], rs2[i], c2[i]))
    && (forall i :: i in Joiners(rs1, c1, rs2, c2, f) && i >= |rs1| <==>
          |rs1| <= i < |rs2| && Matches(f, rs2[i], c2[i]))
  }

  /** The balance of a list counted and sent later, with the cause of each difference: too few are sent exactly when
      more records left than joined, too many exactly when fewer did. */
  lemma ListsBalance(rs1: seq<Booking>, c1: seq<nat>, rs2: seq<Booking>, c2: seq<nat>, f: Filter)
    requires Later(rs1, c1, rs2, c2)
    ensures Explained(rs1, c1, rs2, c2, f)
    ensures |Matching(rs1, f, c1)| + |Joiners(rs1, c1, rs2, c2, f)|
         == |Matching(rs2, f, c2)| + |Leavers(rs1, c1, rs2, c2, f)|
  {
    CountedAndJoinedIsSentAndLeft(rs1, c1, rs2, c2, f);
    forall i: nat
      ensures i in Leavers(rs1, c1, rs2, c2, f) <==> i < |rs1| && Leaves(f, rs1[i], c1[i], rs2[i], c2[i])
      ensures i in Joiners(rs1, c1, rs2, c2, f) <==>
                i < |rs2| && if i < |rs1| then Turns(f, rs1[i], rs2[i], c2[i]) else Matches(f, rs2[i], c2[i])
    {
      LeaversAndJoinersExactly(rs1, c1, rs2, c2, f, i);
    }
  }

  /** Every booking counted is still to be listed when it is looked at again: not over, and of a listed status. */
  predicate CountedRemain(rs1: seq<Booking>, c1: seq<nat>, rs2: seq<Booking>, c2: seq<nat>, f: Filter)
    requires |rs1| <= |rs2| && |c1| == |rs1| && |c2| == |rs2|
  {
    forall i :: 0 <= i < |rs1| && Matches(f, rs1[i], c1[i]) ==>
      (FromNow(f) ==> c2[i] <= rs1[i].end) && StatusFits(f, rs2[i].status)
  }

  /** No booking that was there at the count has changed to a listed status since. */
  predicate NoneTurns(rs1: seq<Booking>, rs2: seq<Booking>, f: Filter)
    requires |rs1| <= |rs2|
  {
    forall i :: 0 <= i < |rs1| && StatusFits(f, rs2[i].status) ==> StatusFits(f, rs1[i].status)
  }

  lemma CountedRemainExactly(rs1: seq<Booking>, c1: seq<nat>, rs2: seq<Booking>, c2: seq<nat>, f: Filter)
    requires |rs1| <= |rs2| && |c1| == |rs1| && |c2| == |rs2| && Explained(rs1, c1, rs2, c2, f)
    ensures CountedRemain(rs1, c1, rs2, c2, f) <==> Leavers(rs1, c1, rs2, c2, f) == {}
  {
    if !CountedRemain(rs1, c1, rs2, c2, f) {
      var i :| 0 <= i < |rs1| && Leaves(f, rs1[i], c1[i], rs2[i], c2[i]);
      assert i in Leavers(rs1, c1, rs2, c2, f);
    }
  }

  /** As long as every counted booking remains, no list falls short, whatever else is created, approved or forced. */
  lemma RemainingListsNeverFallShort(rs1: seq<Booking>, c1: seq<nat>, rs2: seq<Booking>, c2: seq<nat>, f: Filter)
    requires Later(rs1, c1, rs2, c2) && CountedRemain(rs1, c1, rs2, c2, f)
    ensures |Matching(rs1, f, c1)| <= |Matching(rs2, f, c2)|
  {
    ListsBalance(rs1, c1, rs2, c2, f);
    CountedRemainExactly(rs1, c1, rs2, c2, f);
  }

  /** Exactly when a list falls short, nothing having joined it: unless every booking counted remains.  For the lists
      that do not look at the status no booking can turn, so it is then enough that nothing was created. */
  lemma ListsFallShortExactly(rs1: seq<Booking>, c1: seq<nat>, rs2: seq<Booking>, c2: seq<nat>, f: Filter)
    requires Later(rs1, c1, rs2, c2) && |rs1| == |rs2| && NoneTurns(rs1, rs2, f)
    ensures |Matching(rs1, f, c1)| <= |Matching(rs2, f, c2)| <==> CountedRemain(rs1, c1, rs2, c2, f)
  {
    ListsBalance(rs1, c1, rs2, c2, f);
    CountedRemainExactly(rs1, c1, rs2, c2, f);
    assert Joiners(rs1, c1, rs2, c2, f) == {};
  }

  /** In particular: from the current time on by owner, by part of a name or by room, a list falls short if and only if
      one of the bookings counted has ended. */
  lemma ExpiringListsFallShortExactly(rs1: seq<Booking>, c1: seq<nat>, rs2: seq<Booking>, c2: seq<nat>, f: Filter)
    requires Later(rs1, c1, rs2, c2) && |rs1| == |rs2| && FixedFromNow(f)
    ensures |Matching(rs1, f, c1)| <= |Matching(rs2, f, c2)| <==>
              forall i :: 0 <= i < |rs1| && Matches(f, rs1[i], c1[i]) ==> c2[i] <= rs1[i].end
  {
    ListsFallShortExactly(rs1, c1, rs2, c2, f);
  }

  /** And the preview before a creation falls short, no rejected booking having come back, if and only if one of the
      bookings counted has ended or been rejected. */
  lemma PreviewsFallShortExactly(rs1: seq<Booking>, c1: seq<nat>, rs2: seq<Booking>, c2: seq<nat>, room: U32)
    requires Later(rs1, c1, rs2, c2) && |rs1| == |rs2|
    requires forall i :: 0 <= i < |rs1| && rs1[i].status == REJECTED ==> rs2[i].status == REJECTED
    ensures var f := RoomFromNowNotRejected(room);
      |Matching(rs1, f, c1)| <= |Matching(rs2, f, c2)| <==>
        forall i :: 0 <= i < |rs1| && Matches(f, rs1[i], c1[i]) ==> c2[i] <= rs1[i].end && rs2[i].status != REJECTED
  {
    ListsFallShortExactly(rs1, c1, rs2, c2, RoomFromNowNotRejected(room));
  }

  // ---------- over runs ----------

  /** The state when the child comes to send what it counted in `s`, other children having acted since. */
  function AtSend(s: State, c: nat, f: Filter, ls: seq<Label>): State {
    Run(Next(s, CountPass(c, f)), ls)
  }

  /** So it is between the two passes of a child, whatever the other children do in between. */
  lemma CountAgainstSendExactly(s: State, c: nat, f: Filter, ls: seq<Label>)
    requires Inv(s) && c !in s.flights && Others(c, ls)
    ensures var t := AtSend(s, c, f, ls);
      var c1, c2 := Still(s.clock, |s.bookings|), Still(t.clock, |t.bookings|);
      && Enabled(t, SendPass(c)) && Later(s.bookings, c1, t.bookings, c2)
      && Explained(s.bookings, c1, t.bookings, c2, f)
      && t.flights[c].count + |Joiners(s.bookings, c1, t.bookings, c2, f)|
         == |Sent(t, c)| + |Leavers(s.bookings, c1, t.bookings, c2, f)|
  {
    var u, t := Next(s, CountPass(c, f)), AtSend(s, c, f, ls);
    StepKeepsInv(s, CountPass(c, f));
    OthersLeaveFlight(u, c, ls);
    HistoryIsAppendOnly(u, ls);
    ListsBalance(s.bookings, Still(s.clock, |s.bookings|), t.bookings, Still(t.clock, |t.bookings|), f);
  }
}
