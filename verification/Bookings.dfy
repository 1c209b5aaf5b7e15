/** The bookings file as a sequence of records with a cursor, and the loops the server runs over it. */
module Bookings {
  import opened Records
  import opened Operations
  import opened Filters

  // ---------- what the loops need to know ----------

  predicate Climbing(clocks: seq<nat>) {
    forall i, j :: 0 <= i <= j < |clocks| ==> clocks[i] <= clocks[j]
  }

  /** A record that could not be rejected when it was looked at cannot be rejected later. */
  lemma NoneRejectableLater(rs: seq<Booking>, id: U32, clocks: seq<nat>, n: nat, at: nat)
    requires n <= |rs| == |clocks| && Climbing(clocks)
    requires forall i :: 0 <= i < n ==> !Rejectable(rs[i], id, clocks[i])
    requires n > 0 ==> clocks[n - 1] <= at
    ensures n == |rs| ==> RejectIn(rs, id, at) == (rs, ZERO_BOOKING)
    ensures n < |rs| && Rejectable(rs[n], id, at) ==>
              var rejected := rs[n].(status := REJECTED); RejectIn(rs, id, at) == (rs[n := rejected], rejected)
  {
    assert forall i :: 0 <= i < n ==> !Rejectable(rs[i], id, at);
    if n < |rs| && Rejectable(rs[n], id, at) {
      assert n == RejectIndex(rs, id, at);
    }
  }

  /** What is sent of the first n records. */
  ghost function ShownUpTo(rs: seq<Booking>, f: Filter, clocks: seq<nat>, n: nat, shouldMask: bool, viewer: string)
      : seq<Booking>
    requires |clocks| == |rs| && n <= |rs|
  {
    ShownAll(Matching(rs[..n], f, clocks[..n]), shouldMask, viewer)
  }

  lemma ShownOneMore(rs: seq<Booking>, f: Filter, clocks: seq<nat>, n: nat, shouldMask: bool, viewer: string)
    requires |clocks| == |rs| && n < |rs|
    ensures ShownUpTo(rs, f, clocks, n + 1, shouldMask, viewer)
         == ShownUpTo(rs, f, clocks, n, shouldMask, viewer)
            + if Matches(f, rs[n], clocks[n]) then [Shown(rs[n], shouldMask, viewer)] else []
  {
    MatchingOfPrefix(rs, f, clocks, n);
  }

  lemma {:induction false} ShownUpToIsPrefix(rs: seq<Booking>, f: Filter, clocks: seq<nat>, n: nat,
                                             shouldMask: bool, viewer: string)
    requires |clocks| == |rs| && n <= |rs|
    ensures ShownUpTo(rs, f, clocks, n, shouldMask, viewer) <= ShownAll(Matching(rs, f, clocks), shouldMask, viewer)
    ensures n == |rs| ==>
              ShownUpTo(rs, f, clocks, n, shouldMask, viewer) == ShownAll(Matching(rs, f, clocks), shouldMask, viewer)
    decreases |rs| - n
  {
    if n == |rs| {
      assert rs[..n] == rs && clocks[..n] == clocks;
    } else {
      ShownOneMore(rs, f, clocks, n, shouldMask, viewer);
      ShownUpToIsPrefix(rs, f, clocks, n + 1, shouldMask, viewer);
    }
  }

  class BookingFile {
    var records: seq<Booking>
    var pos: nat

    constructor (contents: seq<Booking>)
      ensures records == contents && pos == 0
    {
      records, pos := contents, 0;
    }

    // ---------- the stdio calls ----------

    method SeekStart()
      modifies this`pos
      ensures pos == 0
    {
      pos := 0;
    }

    method SeekBackOne()
      requires pos > 0
      modifies this`pos
      ensures pos == old(pos) - 1
    {
      pos := pos - 1;
    }

    /** `fread` of one record: false at the end of the file. */
    method Read() returns (ok: bool, b: Booking)
      requires pos <= |records|
      modifies this`pos
      ensures ok == (old(pos) < |records|)
      ensures ok ==> pos == old(pos) + 1 && b == records[old(pos)]
      ensures !ok ==> pos == old(pos)
    {
      ok, b := false, ZERO_BOOKING;
      if pos < |records| {
        ok, b := true, records[pos];
        pos := pos + 1;
      }
    }

    /** `fwrite` in "rb+" mode, over an existing record. */
    method Overwrite(b: Booking)
      requires pos < |records|
      modifies this
      ensures records == old(records)[old(pos) := b] && pos == old(pos) + 1
    {
      records := records[pos := b];
      pos := pos + 1;
    }

    /** `fwrite` in "ab+" mode: always at the end. */
    method Append(b: Booking)
      modifies this
      ensures records == old(records) + [b] && pos == |records|
    {
      records := records + [b];
      pos := |records|;
    }

    // ---------- writers ----------

    /** `create_booking` from the write lock on. */
    method CreateBooking(newBooking: Booking) returns (created: Booking)
      modifies this
      ensures (records, created) == CreateIn(old(records), newBooking)
    {
      created := ZERO_BOOKING;
      var greatest: U32 := 0;
      SeekStart();
      while true
        invariant records == old(records) && pos <= |records| && created == ZERO_BOOKING
        invariant ScannedClear(records, newBooking, pos, greatest)
        decreases |records| - pos
      {
        var ok, existing := Read();
        if !ok { break; }
        ScannedOneMore(records, newBooking, pos - 1, greatest);
        if existing.id > greatest {
          greatest := existing.id;
        }
        if IsConflict(existing, newBooking) {
          return;
        }
      }
      ScannedToTheEnd(records, newBooking, greatest);
      created := newBooking;
      created := created.(status := PENDING);
      created := created.(id := (greatest + 1) % 0x1_0000_0000);
      Append(created);
    }

    /** `clocks[i]` is the time at which record i is looked at.  The whole scan is as good as one at the time `at` of
        its last look. */
    method RejectBooking(id: U32, clocks: seq<nat>) returns (rejected: Booking, ghost at: nat)
      requires |clocks| == |records| && Climbing(clocks)
      modifies this
      ensures (records, rejected) == RejectIn(old(records), id, at)
      ensures clocks != [] ==> at in clocks
    {
      rejected, at := ZERO_BOOKING, 0;
      SeekStart();
      while true
        invariant records == old(records) && pos <= |records| && rejected == ZERO_BOOKING
        invariant forall i :: 0 <= i < pos ==> !Rejectable(records[i], id, clocks[i])
        invariant at == if pos == 0 then 0 else clocks[pos - 1]
        decreases |records| - pos
      {
        var ok, booking := Read();
        if !ok { break; }
        at := clocks[pos - 1];
        if booking.id == id && booking.status == PENDING && !InPast(booking, clocks[pos - 1]) {
          NoneRejectableLater(records, id, clocks, pos - 1, at);
          booking := booking.(status := REJECTED);
          SeekBackOne();
          Overwrite(booking);
          rejected := booking;
          return;
        }
      }
      NoneRejectableLater(records, id, clocks, pos, at);
    }

    method ForceBookingStatus(id: U32, status: Byte) returns (forced: Booking)
      modifies this
      ensures (records, forced) == ForceIn(old(records), id, status)
    {
      forced := ZERO_BOOKING;
      SeekStart();
      while true
        invariant records == old(records) && pos <= |records| && forced == ZERO_BOOKING
        invariant forall i :: 0 <= i < pos ==> records[i].id != id
        decreases |records| - pos
      {
        var ok, booking := Read();
        if !ok { break; }
        if booking.id == id {
          assert pos - 1 == IndexOfId(records, id);
          booking := booking.(status := status);
          forced := booking;
          SeekBackOne();
          Overwrite(booking);
          break;
        }
      }
    }

    /** Leaves the cursor just behind the conflicting record, where the caller's branch writes. */
    method HasBookingConflictNoLock(request: Booking) returns (found: bool)
      modifies this`pos
      ensures found == (ConflictIndex(records, request) < |records|)
      ensures found ==> pos == ConflictIndex(records, request) + 1
    {
      SeekStart();
      while true
        invariant pos <= |records|
        invariant forall i :: 0 <= i < pos ==> !ConflictsWithOther(records[i], request)
        decreases |records| - pos
      {
        var ok, existing := Read();
        if !ok { break; }
        if IsConflict(existing, request) && existing.id != request.id {
          return true;
        }
      }
      return false;
    }

    /** The write-locked half of `approve_booking`: read a record, step back over it, overwrite it, go on. */
    method CommitApproval(request: Booking, snap: Booking) returns (approved: Booking)
      modifies this
      ensures (records, approved) == ApproveCommit(old(records), request, snap)
    {
      approved := ZERO_BOOKING;
      var conflict := HasBookingConflictNoLock(request);
      if conflict {
        SeekBackOne();
        Overwrite(snap.(status := REJECTED));
        return;
      }
      var target := snap.(status := APPROVED);
      SeekStart();
      while true
        invariant SweptUpTo(old(records), records, target, pos)
        invariant approved == if IndexOfId(old(records), target.id) < pos then target else ZERO_BOOKING
        decreases |records| - pos
      {
        var ok, booking := Read();
        if !ok { break; }
        SweptOneMore(old(records), records, target, pos - 1);
        if booking.id == target.id {
          booking := target;
          SeekBackOne();
          Overwrite(booking);
          approved := booking;
          continue;
        }
        if IsConflict(booking, target) && booking.status == PENDING {
          booking := booking.(status := REJECTED);
          SeekBackOne();
          Overwrite(booking);
        }
      }
      SweptToTheEnd(old(records), records, target);
    }

    // ---------- readers ----------

    /** `find_first_booking_by_filter` with `match_by_booking_id`, the only filter it is called with. */
    method FindFirstById(id: U32) returns (found: Booking)
      modifies this`pos
      ensures found == FindFirst(records, id)
    {
      found := ZERO_BOOKING;
      SeekStart();
      while true
        invariant pos <= |records| && found == ZERO_BOOKING
        invariant forall i :: 0 <= i < pos ==> records[i].id != id
        decreases |records| - pos
      {
        var ok, booking := Read();
        if !ok { break; }
        if Matches(ByBookingId(id), booking, 0) {
          assert pos - 1 == IndexOfId(records, id);
          found := booking;
          break;
        }
      }
    }

    /** `approve_booking` run with nobody in between. */
    method ApproveBooking(request: Booking, now: nat) returns (approved: Booking)
      modifies this
      ensures (records, approved) == ApproveIn(old(records), request, now)
    {
      var existing := FindFirstById(request.id);
      if existing.id <= 0 || InPast(existing, now) {
        return ZERO_BOOKING;
      }
      approved := CommitApproval(request, existing);
    }

    method CountBookings(f: Filter, clocks: seq<nat>) returns (count: nat)
      requires |clocks| == |records|
      modifies this`pos
      ensures count == |Matching(records, f, clocks)|
    {
      count := 0;
      SeekStart();
      while true
        invariant pos <= |records|
        invariant count == |Matching(records[..pos], f, clocks[..pos])|
        decreases |records| - pos
      {
        var ok, booking := Read();
        if !ok { break; }
        MatchingOfPrefix(records, f, clocks, pos - 1);
        if Matches(f, booking, clocks[pos - 1]) {
          count := count + 1;
        }
      }
      assert records[..pos] == records && clocks[..pos] == clocks;
    }

    /** `sent` is what went over the socket, which takes only so many records before `send` fails and the scan is given
        up. */
    method SendBookings(f: Filter, clocks: seq<nat>, shouldMask: bool, viewer: string, capacity: nat)
      returns (sent: seq<Booking>)
      requires |clocks| == |records|
      modifies this`pos
      ensures var all := ShownAll(Matching(records, f, clocks), shouldMask, viewer);
        sent == if |all| <= capacity then all else all[..capacity]
    {
      sent := [];
      SeekStart();
      while true
        invariant pos <= |records| && |sent| <= capacity
        invariant sent == ShownUpTo(records, f, clocks, pos, shouldMask, viewer)
        decreases |records| - pos
      {
        var ok, booking := Read();
        if !ok { break; }
        ShownOneMore(records, f, clocks, pos - 1, shouldMask, viewer);
        if Matches(f, booking, clocks[pos - 1]) {
          if shouldMask && booking.username != viewer {
            booking := booking.(username := MASKED_NAME);
            booking := booking.(id := 0);
          }
          if |sent| == capacity {
            break;
          }
          sent := sent + [booking];
        }
      }
      ShownUpToIsPrefix(records, f, clocks, pos, shouldMask, viewer);
    }
  }
}
