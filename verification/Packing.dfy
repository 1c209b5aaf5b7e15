/** How many bookings of a room fit into a window of time. */
module Packing {
  import opened Records
  import opened Reservations
  import opened Consistency

  function Seconds(from: int, to: int): (s: set<int>)
    ensures forall t :: t in s <==> from <= t < to
    ensures from <= to ==> |s| == to - from
    decreases if from < to then to - from else 0
  {
    if from < to then Seconds(from, to - 1) + {to - 1} else {}
  }

  function Covered(rs: seq<Booking>): set<int> {
    if rs == [] then {} else Covered(rs[..|rs| - 1]) + Seconds(rs[|rs| - 1].start, rs[|rs| - 1].end)
  }

  function TotalDuration(rs: seq<Booking>): int {
    if rs == [] then 0 else TotalDuration(rs[..|rs| - 1]) + (rs[|rs| - 1].end - rs[|rs| - 1].start)
  }

  predicate PairwiseDisjoint(rs: seq<Booking>) {
    forall i, j :: 0 <= i < j < |rs| ==> !Overlap(rs[i], rs[j])
  }

  predicate InWindow(rs: seq<Booking>, from: U64, to: U64) {
    forall i :: 0 <= i < |rs| ==> WholeSlots(rs[i]) && from <= rs[i].start && rs[i].end <= to
  }

  lemma {:induction false} CoveredSecond(rs: seq<Booking>, t: int)
    requires t in Covered(rs)
    ensures exists i :: 0 <= i < |rs| && rs[i].start <= t < rs[i].end
  {
    var n := |rs| - 1;
    if t in Covered(rs[..n]) {
      CoveredSecond(rs[..n], t);
      var i :| 0 <= i < n && rs[..n][i].start <= t < rs[..n][i].end;
      assert rs[i] == rs[..n][i];
    }
  }

  lemma {:induction false} DisjointCoverCount(rs: seq<Booking>, from: U64, to: U64)
    requires PairwiseDisjoint(rs) && InWindow(rs, from, to)
    ensures |Covered(rs)| == TotalDuration(rs)
    ensures BOOKING_TIME_SLOT_SECONDS * |rs| <= TotalDuration(rs)
  {
    if rs != [] {
      var n := |rs| - 1;
      var last := Seconds(rs[n].start, rs[n].end);
      DisjointCoverCount(rs[..n], from, to);
      assert Covered(rs[..n]) !! last by {
        forall t | t in Covered(rs[..n]) ensures t !in last {
          CoveredSecond(rs[..n], t);
          var i :| 0 <= i < n && rs[..n][i].start <= t < rs[..n][i].end;
          assert !Overlap(rs[i], rs[n]);
        }
      }
      SlotIsAnHour(rs[n]);
    }
  }

  lemma SlotIsAnHour(b: Booking)
    requires WholeSlots(b)
    ensures b.end - b.start >= BOOKING_TIME_SLOT_SECONDS
  {}

  lemma SubsetCount(a: set<int>, b: set<int>)
    requires a <= b
    ensures |a| <= |b|
  {
    assert b == a + (b - a);
  }

  /** Packing bound: disjoint bookings inside a window last no longer than it in total, so at most one per slot fits. */
  lemma PackingBound(rs: seq<Booking>, from: U64, to: U64)
    requires from <= to && PairwiseDisjoint(rs) && InWindow(rs, from, to)
    ensures TotalDuration(rs) <= to - from
    ensures |rs| <= (to - from) / BOOKING_TIME_SLOT_SECONDS
  {
    DisjointCoverCount(rs, from, to);
    forall t | t in Covered(rs) ensures t in Seconds(from, to) {
      CoveredSecond(rs, t);
    }
    SubsetCount(Covered(rs), Seconds(from, to));
  }

  // ---------- the bookings of one room in the file ----------

  datatype Choice = Choice(room: U32, status: Byte, ofUser: bool, username: string, from: U64, to: U64)

  predicate Chosen(b: Booking, c: Choice) {
    && b.room == c.room && b.status == c.status && (c.ofUser ==> b.username == c.username)
    && c.from <= b.start && b.end <= c.to
  }

  function Select(rs: seq<Booking>, c: Choice): (r: seq<Booking>)
    ensures forall b :: b in r ==> b in rs && Chosen(b, c)
  {
    if rs == [] then []
    else Select(rs[..|rs| - 1], c) + if Chosen(rs[|rs| - 1], c) then [rs[|rs| - 1]] else []
  }

  /** Every chosen booking is selected, exactly as often as it is stored. */
  lemma {:induction false} SelectionIsExact(rs: seq<Booking>, c: Choice, b: Booking)
    ensures multiset(Select(rs, c))[b]
         == if b.room == c.room && b.status == c.status && (c.ofUser ==> b.username == c.username)
               && c.from <= b.start && b.end <= c.to
            then multiset(rs)[b] else 0
  {
    if rs != [] {
      SelectionIsExact(rs[..|rs| - 1], c, b);
      assert rs == rs[..|rs| - 1] + [rs[|rs| - 1]];
    }
  }

  lemma {:induction false} SelectionIsDisjoint(rs: seq<Booking>, c: Choice)
    requires forall i, j :: 0 <= i < j < |rs| && Chosen(rs[i], c) && Chosen(rs[j], c) ==> !Clash(rs[i], rs[j])
    ensures PairwiseDisjoint(Select(rs, c))
  {
    if rs != [] {
      var n := |rs| - 1;
      var front := Select(rs[..n], c);
      SelectionIsDisjoint(rs[..n], c);
      if Chosen(rs[n], c) {
        forall k | 0 <= k < |front| ensures !Overlap(front[k], rs[n]) {
          assert front[k] in rs[..n];
          var i :| 0 <= i < n && rs[i] == front[k];
          assert !Clash(rs[i], rs[n]);
        }
      }
    }
  }

  lemma SelectionFits(rs: seq<Booking>, c: Choice)
    requires c.from <= c.to
    requires forall i :: 0 <= i < |rs| ==> WholeSlots(rs[i])
    requires forall i, j :: 0 <= i < j < |rs| && Chosen(rs[i], c) && Chosen(rs[j], c) ==> !Clash(rs[i], rs[j])
    ensures TotalDuration(Select(rs, c)) <= c.to - c.from
    ensures |Select(rs, c)| <= (c.to - c.from) / BOOKING_TIME_SLOT_SECONDS
  {
    SelectionIsDisjoint(rs, c);
    var picked := Select(rs, c);
    forall i | 0 <= i < |picked| ensures WholeSlots(picked[i]) && c.from <= picked[i].start && picked[i].end <= c.to {
      assert picked[i] in rs && Chosen(picked[i], c);
    }
    PackingBound(picked, c.from, c.to);
  }

  /** After every force-free run, one user's pending bookings of one room fit into any window they lie in. */
  lemma PendingBookingsFit(s: State, ls: seq<Label>, room: U32, username: string, from: U64, to: U64)
    requires Initial(s) && Safe(s.bookings) && ForceFree(ls) && from <= to
    ensures var picked := Select(Run(s, ls).bookings, Choice(room, PENDING, true, username, from, to));
      TotalDuration(picked) <= to - from && |picked| <= (to - from) / BOOKING_TIME_SLOT_SECONDS
  {
    ForceFreeRunsStaySafe(s, ls);
    StepFits(Run(s, ls), Choice(room, PENDING, true, username, from, to));
  }

  /** The same for all approved bookings of a room, under the exact condition for no double booking. */
  lemma ApprovedBookingsFit(s: State, ls: seq<Label>, room: U32, from: U64, to: U64)
    requires Initial(s) && Safe(s.bookings) && ForceFree(ls) && from <= to
    requires NoDoubleBooking(s.bookings) && Throughout(s, ls, CommitsClear)
    ensures var picked := Select(Run(s, ls).bookings, Choice(room, APPROVED, false, "", from, to));
      TotalDuration(picked) <= to - from && |picked| <= (to - from) / BOOKING_TIME_SLOT_SECONDS
  {
    ForceFreeRunsStaySafe(s, ls);
    RunDoubleBookingExactly(s, ls);
    StepFits(Run(s, ls), Choice(room, APPROVED, false, "", from, to));
  }

  lemma StepFits(t: State, c: Choice)
    requires Inv(t) && c.from <= c.to
    requires (c.status == PENDING && c.ofUser && PendingDisjointPerUser(t.bookings))
          || (c.status == APPROVED && NoDoubleBooking(t.bookings))
    ensures TotalDuration(Select(t.bookings, c)) <= c.to - c.from
    ensures |Select(t.bookings, c)| <= (c.to - c.from) / BOOKING_TIME_SLOT_SECONDS
  {
    SelectionFits(t.bookings, c);
  }
}
