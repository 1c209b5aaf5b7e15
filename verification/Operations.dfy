/** What each locked section on the bookings file computes, as a function of the file's contents. */
module Operations {
  import opened Records

  // ---------- searching ----------

  function First(rs: seq<Booking>, p: Booking -> bool): (i: nat)
    ensures i <= |rs|
    ensures forall j :: 0 <= j < i ==> !p(rs[j])
    ensures i < |rs| ==> p(rs[i])
  {
    if rs == [] then 0
    else if p(rs[0]) then 0
    else
      var i := First(rs[1..], p);
      assert forall j :: 0 < j < i + 1 ==> rs[j] == rs[1..][j - 1];
      i + 1
  }

  function IndexOfId(rs: seq<Booking>, id: U32): (i: nat)
    ensures i <= |rs|
    ensures forall j :: 0 <= j < i ==> rs[j].id != id
    ensures i < |rs| ==> rs[i].id == id
  {
    First(rs, (b: Booking) => b.id == id)
  }

  /** A record `reject_booking` may reject. */
  predicate Rejectable(b: Booking, id: U32, now: nat) {
    b.id == id && b.status == PENDING && !InPast(b, now)
  }

  function RejectIndex(rs: seq<Booking>, id: U32, now: nat): (i: nat)
    ensures i <= |rs|
    ensures forall j :: 0 <= j < i ==> !Rejectable(rs[j], id, now)
    ensures i < |rs| ==> Rejectable(rs[i], id, now)
  {
    First(rs, (b: Booking) => Rejectable(b, id, now))
  }

  function FindFirst(rs: seq<Booking>, id: U32): Booking {
    var i := IndexOfId(rs, id);
    if i < |rs| then rs[i] else ZERO_BOOKING
  }

  function Greatest(rs: seq<Booking>): (g: U32)
    ensures forall i :: 0 <= i < |rs| ==> rs[i].id <= g
    ensures g == 0 || exists i :: 0 <= i < |rs| && rs[i].id == g
  {
    if rs == [] then 0
    else
      var g := Greatest(rs[..|rs| - 1]);
      var last := rs[|rs| - 1].id;
      assert forall i :: 0 <= i < |rs| - 1 ==> rs[i] == rs[..|rs| - 1][i];
      if last > g then last else g
  }

  // ---------- the writers ----------

  predicate HasConflict(rs: seq<Booking>, b: Booking) {
    exists i :: 0 <= i < |rs| && IsConflict(rs[i], b)
  }

  /** The record `create_booking` would append: the new id wraps around at 32 bits. */
  function NewRecord(rs: seq<Booking>, b: Booking): Booking {
    b.(id := (Greatest(rs) + 1) % 0x1_0000_0000, status := PENDING)
  }

  /** The scan of `create_booking` has come past n records: none conflicts, and the running maximum is theirs. */
  predicate ScannedClear(rs: seq<Booking>, b: Booking, n: nat, greatest: U32) {
    n <= |rs| && greatest == Greatest(rs[..n]) && forall i :: 0 <= i < n ==> !IsConflict(rs[i], b)
  }

  lemma ScannedOneMore(rs: seq<Booking>, b: Booking, n: nat, greatest: U32)
    requires ScannedClear(rs, b, n, greatest) && n < |rs|
    ensures !IsConflict(rs[n], b) ==>
              ScannedClear(rs, b, n + 1, if rs[n].id > greatest then rs[n].id else greatest)
    ensures IsConflict(rs[n], b) ==> CreateIn(rs, b) == (rs, ZERO_BOOKING)
  {
    GreatestOfPrefix(rs, n);
  }

  lemma ScannedToTheEnd(rs: seq<Booking>, b: Booking, greatest: U32)
    requires ScannedClear(rs, b, |rs|, greatest)
    ensures var created := b.(status := PENDING).(id := (greatest + 1) % 0x1_0000_0000);
      CreateIn(rs, b) == (rs + [created], created)
  {
    assert rs[..|rs|] == rs;
  }

  function CreateIn(rs: seq<Booking>, b: Booking): (seq<Booking>, Booking) {
    if HasConflict(rs, b) then (rs, ZERO_BOOKING) else (rs + [NewRecord(rs, b)], NewRecord(rs, b))
  }

  function RejectIn(rs: seq<Booking>, id: U32, now: nat): (seq<Booking>, Booking) {
    var i := RejectIndex(rs, id, now);
    if i < |rs| then
      var rejected := rs[i].(status := REJECTED);
      (rs[i := rejected], rejected)
    else (rs, ZERO_BOOKING)
  }

  function ForceIn(rs: seq<Booking>, id: U32, status: Byte): (seq<Booking>, Booking) {
    var i := IndexOfId(rs, id);
    if i < |rs| then
      var forced := rs[i].(status := status);
      (rs[i := forced], forced)
    else (rs, ZERO_BOOKING)
  }

  function SweepRecord(b: Booking, target: Booking): Booking {
    if b.id == target.id then target
    else if IsConflict(b, target) && b.status == PENDING then b.(status := REJECTED)
    else b
  }

  /** The whole file after the sweep of `approve_booking`, every record treated on its own. */
  function Sweep(rs: seq<Booking>, target: Booking): (r: seq<Booking>)
    ensures |r| == |rs|
    ensures forall i :: 0 <= i < |rs| ==> r[i] == SweepRecord(rs[i], target)
  {
    seq(|rs|, i requires 0 <= i < |rs| => SweepRecord(rs[i], target))
  }

  /** The sweep has dealt with the first n records of `base` and not touched the others. */
  predicate SweptUpTo(base: seq<Booking>, file: seq<Booking>, target: Booking, n: nat) {
    && n <= |file| == |base|
    && (forall j :: 0 <= j < n ==> file[j] == SweepRecord(base[j], target))
    && (forall j :: n <= j < |file| ==> file[j] == base[j])
  }

  lemma SweptOneMore(base: seq<Booking>, file: seq<Booking>, target: Booking, n: nat)
    requires SweptUpTo(base, file, target, n) && n < |base|
    ensures file[n] == base[n]
    ensures SweptUpTo(base, file[n := SweepRecord(base[n], target)], target, n + 1)
    ensures SweepRecord(base[n], target) == base[n] ==> SweptUpTo(base, file, target, n + 1)
  {}

  lemma SweptToTheEnd(base: seq<Booking>, file: seq<Booking>, target: Booking)
    requires SweptUpTo(base, file, target, |base|)
    ensures file == Sweep(base, target)
  {}

  /** The test inside `has_booking_conflict_no_lock`. */
  predicate ConflictsWithOther(b: Booking, request: Booking) {
    IsConflict(b, request) && b.id != request.id
  }

  function ConflictIndex(rs: seq<Booking>, request: Booking): (i: nat)
    ensures i <= |rs|
    ensures forall j :: 0 <= j < i ==> !ConflictsWithOther(rs[j], request)
    ensures i < |rs| ==> ConflictsWithOther(rs[i], request)
  {
    First(rs, (b: Booking) => ConflictsWithOther(b, request))
  }

  /** The write-locked half of `approve_booking`: `snap` is what the read-locked half found. */
  function ApproveCommit(rs: seq<Booking>, request: Booking, snap: Booking): (seq<Booking>, Booking) {
    var k := ConflictIndex(rs, request);
    if k < |rs| then (rs[k := snap.(status := REJECTED)], ZERO_BOOKING)
    else
      var target := snap.(status := APPROVED);
      (Sweep(rs, target), if IndexOfId(rs, snap.id) < |rs| then target else ZERO_BOOKING)
  }

  /** What the shipped client sends to approve a booking: zero everywhere except the id. */
  function ApproveRequest(id: U32): Booking {
    ZERO_BOOKING.(id := id)
  }

  predicate Approvable(snap: Booking, now: nat) {
    snap.id != 0 && !InPast(snap, now)
  }

  /** `approve_booking` with nothing happening between its two halves. */
  function ApproveIn(rs: seq<Booking>, request: Booking, now: nat): (seq<Booking>, Booking) {
    var snap := FindFirst(rs, request.id);
    if Approvable(snap, now) then ApproveCommit(rs, request, snap) else (rs, ZERO_BOOKING)
  }

  // ---------- facts about single operations ----------

  lemma GreatestOfPrefix(rs: seq<Booking>, n: nat)
    requires n < |rs|
    ensures Greatest(rs[..n + 1]) == if rs[n].id > Greatest(rs[..n]) then rs[n].id else Greatest(rs[..n])
  {
    assert rs[..n + 1][..n] == rs[..n];
  }

  lemma NewId(rs: seq<Booking>, b: Booking)
    ensures NewRecord(rs, b).id == if Greatest(rs) < U32_MAX then Greatest(rs) + 1 else 0
  {}

  /** The conflict branch of `approve_booking` is dead for the shipped client's request, whose time range is empty at 0:
      the commit is the sweep alone. */
  lemma ClientApproveOnlySweeps(rs: seq<Booking>, id: U32, snap: Booking)
    ensures ConflictIndex(rs, ApproveRequest(id)) == |rs|
    ensures ApproveCommit(rs, ApproveRequest(id), snap).0 == Sweep(rs, snap.(status := APPROVED))
  {}

  // ---------- what the operations mean, record by record ----------

  /** The search for the first rejectable record and the break behind it amount to a rule for every record. */
  lemma RejectEffect(rs: seq<Booking>, id: U32, now: nat)
    requires UniqueIds(rs)
    ensures var (after, reply) := RejectIn(rs, id, now);
      && |after| == |rs|
      && (forall i :: 0 <= i < |rs| ==>
            after[i] == if rs[i].id == id && rs[i].status == PENDING && now <= rs[i].end
                        then rs[i].(status := REJECTED) else rs[i])
      && (if after == rs then reply == ZERO_BOOKING else reply in after && reply.id == id && reply.status == REJECTED)
  {
    var k := RejectIndex(rs, id, now);
    var (after, reply) := RejectIn(rs, id, now);
    if k < |rs| {
      assert after[k] == reply;
      assert forall i :: 0 <= i < |rs| && i != k ==> rs[i].id != id;
    }
  }

  lemma ForceEffect(rs: seq<Booking>, id: U32, status: Byte)
    requires UniqueIds(rs)
    ensures var (after, reply) := ForceIn(rs, id, status);
      && |after| == |rs|
      && (forall i :: 0 <= i < |rs| ==> after[i] == if rs[i].id == id then rs[i].(status := status) else rs[i])
      && (forall i :: 0 <= i < |rs| && rs[i].id == id ==> reply == after[i])
  {
    var k := IndexOfId(rs, id);
    assert forall i :: 0 <= i < |rs| && i != k ==> k < |rs| ==> rs[i].id != id;
  }

  /** An approval with unique ids, whatever its target's status was: the target is approved, every other pending booking
      of the room overlapping it is rejected, everything else stays. */
  lemma ApproveEffect(rs: seq<Booking>, k: nat, now: nat)
    requires UniqueIds(rs) && k < |rs| && rs[k].id != 0 && now <= rs[k].end
    ensures var (after, reply) := ApproveIn(rs, ApproveRequest(rs[k].id), now);
      && |after| == |rs|
      && after[k] == reply == rs[k].(status := APPROVED)
      && (forall i :: 0 <= i < |rs| && i != k ==>
            after[i] == if rs[i].status == PENDING && rs[i].room == rs[k].room
                           && rs[i].start < rs[k].end && rs[k].start < rs[i].end
                        then rs[i].(status := REJECTED) else rs[i])
  {
    var id := rs[k].id;
    assert IndexOfId(rs, id) == k;
    ClientApproveOnlySweeps(rs, id, rs[k]);
  }

  /** A pending request is refused exactly when it overlaps an approved booking of the room, or an unrejected one of the
      same user in it; otherwise one record joins, equal to the request but for id and status. */
  lemma CreateEffect(rs: seq<Booking>, b: Booking)
    requires b.status == PENDING
    ensures var (after, reply) := CreateIn(rs, b);
      if exists i :: 0 <= i < |rs| && rs[i].room == b.room && rs[i].start < b.end && b.start < rs[i].end
           && (rs[i].status == APPROVED || (rs[i].status != REJECTED && rs[i].username == b.username))
      then after == rs && reply == ZERO_BOOKING
      else after == rs + [reply] && SameButStatus(reply.(id := b.id), b) && reply.status == PENDING
  {
    assert forall i :: 0 <= i < |rs| ==> (IsConflict(rs[i], b) <==>
      rs[i].room == b.room && rs[i].start < b.end && b.start < rs[i].end
      && (rs[i].status == APPROVED || (rs[i].status != REJECTED && rs[i].username == b.username)));
  }

  /** An approval is refused, leaving the file alone, exactly if the id is that of no booking or of one that is over. */
  lemma ApproveRefusedExactly(rs: seq<Booking>, id: U32, now: nat)
    requires UniqueIds(rs) && NonZeroIds(rs)
    ensures ApproveIn(rs, ApproveRequest(id), now) == (rs, ZERO_BOOKING)
       <==> !exists k :: 0 <= k < |rs| && rs[k].id == id && now <= rs[k].end
  {
    if k :| 0 <= k < |rs| && rs[k].id == id && now <= rs[k].end {
      ApproveEffect(rs, k, now);
      assert ApproveIn(rs, ApproveRequest(id), now).1.id == id;
    } else {
      var i := IndexOfId(rs, id);
      if i < |rs| { assert rs[i].end < now; }
    }
  }

  /** A request that brings its own range, as the shipped client's never does: if it conflicts with another booking that
      is not rejected, and itself is not, the first such record is overwritten by the rejected snapshot. */
  lemma ConflictBranchEffect(rs: seq<Booking>, request: Booking, snap: Booking, k: nat)
    requires k < |rs| && request.status != REJECTED
    requires rs[k].id != request.id && rs[k].room == request.room && rs[k].status != REJECTED
    requires rs[k].start < request.end && request.start < rs[k].end
    requires rs[k].status == APPROVED || request.status == APPROVED || rs[k].username == request.username
    requires forall j :: 0 <= j < k ==>
               rs[j].id == request.id || rs[j].room != request.room || rs[j].status == REJECTED
               || rs[j].end <= request.start || request.end <= rs[j].start
               || (rs[j].status != APPROVED && request.status != APPROVED && rs[j].username != request.username)
    ensures ApproveCommit(rs, request, snap) == (rs[k := snap.(status := REJECTED)], ZERO_BOOKING)
  {
    assert ConflictsWithOther(rs[k], request);
    assert forall j :: 0 <= j < k ==> !ConflictsWithOther(rs[j], request);
    assert ConflictIndex(rs, request) == k;
  }
}
