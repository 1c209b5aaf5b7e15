/** The record filters of the listing operations, and the sequence of records each of them selects. */
module Filters {
  import opened Records

  datatype Filter =
    | Any
    | OwnFromNow(username: string)
    | UsernameSubstringFromNow(needle: string)
    | ByBookingId(id: U32)
    | RoomFromNow(room: U32)
    | RoomFromNowNotRejected(room: U32)
    | InTimeRange(range: TimeRange)
    | InTimeRangeOf(range: TimeRange, username: string)
    | StatusFromNow(status: int)
    | StatusFromNowOf(status: int, username: string)

  /** `strstr` finds the needle somewhere in the text. */
  predicate Contains(text: string, needle: string) {
    needle <= text || (text != "" && Contains(text[1..], needle))
  }

  predicate Matches(f: Filter, b: Booking, now: nat) {
    match f
    case Any => true
    case OwnFromNow(username) => !InPast(b, now) && b.username == username
    case UsernameSubstringFromNow(needle) => !InPast(b, now) && Contains(b.username, needle)
    case ByBookingId(id) => b.id == id
    case RoomFromNow(room) => !InPast(b, now) && b.room == room
    case RoomFromNowNotRejected(room) => !InPast(b, now) && b.status != REJECTED && b.room == room
    case InTimeRange(range) => InSameTimeSlot(b.start, b.end, range.start, range.end)
    case InTimeRangeOf(range, username) =>
      InSameTimeSlot(b.start, b.end, range.start, range.end) && b.username == username
    case StatusFromNow(status) => !InPast(b, now) && b.status == status
    case StatusFromNowOf(status, username) => !InPast(b, now) && b.username == username && b.status == status
  }

  /** Filters that look only at fields no operation ever changes, and not at the clock. */
  predicate Stable(f: Filter) {
    f.Any? || f.ByBookingId? || f.InTimeRange? || f.InTimeRangeOf?
  }

  /** The matching records in file order, `clocks[i]` being the time at which record i is looked at. */
  function Matching(rs: seq<Booking>, f: Filter, clocks: seq<nat>): (r: seq<Booking>)
    requires |clocks| == |rs|
    ensures |r| <= |rs|
    ensures forall b :: b in r ==> b in rs && exists t :: t in clocks && Matches(f, b, t)
  {
    if rs == [] then []
    else
      var n := |rs| - 1;
      Matching(rs[..n], f, clocks[..n]) + if Matches(f, rs[n], clocks[n]) then [rs[n]] else []
  }

  lemma MatchingOfPrefix(rs: seq<Booking>, f: Filter, clocks: seq<nat>, n: nat)
    requires |clocks| == |rs| && n < |rs|
    ensures Matching(rs[..n + 1], f, clocks[..n + 1])
         == Matching(rs[..n], f, clocks[..n]) + if Matches(f, rs[n], clocks[n]) then [rs[n]] else []
  {
    assert rs[..n + 1][..n] == rs[..n] && clocks[..n + 1][..n] == clocks[..n];
  }

  /** The positions of the matching records. */
  function MatchingAt(rs: seq<Booking>, f: Filter, clocks: seq<nat>): (r: seq<nat>)
    requires |clocks| == |rs|
    ensures forall k :: 0 <= k < |r| ==> r[k] < |rs|
  {
    if rs == [] then []
    else
      var n := |rs| - 1;
      MatchingAt(rs[..n], f, clocks[..n]) + if Matches(f, rs[n], clocks[n]) then [n] else []
  }

  lemma {:induction false} MatchingAtIsExact(rs: seq<Booking>, f: Filter, clocks: seq<nat>)
    requires |clocks| == |rs|
    ensures var at := MatchingAt(rs, f, clocks);
      && (forall i :: 0 <= i < |rs| ==> (i in at <==> Matches(f, rs[i], clocks[i])))
      && (forall j, k :: 0 <= j < k < |at| ==> at[j] < at[k])
  {
    if rs != [] {
      var n := |rs| - 1;
      MatchingAtIsExact(rs[..n], f, clocks[..n]);
      var front := MatchingAt(rs[..n], f, clocks[..n]);
      forall i | 0 <= i < n ensures i in front <==> Matches(f, rs[i], clocks[i]) {
        assert rs[..n][i] == rs[i] && clocks[..n][i] == clocks[i];
      }
    }
  }

  ghost predicate Selects(rs: seq<Booking>, at: seq<nat>, selected: seq<Booking>) {
    |selected| == |at| && forall k :: 0 <= k < |at| ==> at[k] < |rs| && selected[k] == rs[at[k]]
  }

  lemma SelectsMore(rs: seq<Booking>, n: nat, at: seq<nat>, selected: seq<Booking>)
    requires n < |rs| && Selects(rs[..n], at, selected)
    ensures Selects(rs, at, selected) && Selects(rs, at + [n], selected + [rs[n]])
  {}

  /** Every matching record is selected exactly once, no other is, and file order is kept. */
  lemma {:induction false} MatchingIsTheSubsequence(rs: seq<Booking>, f: Filter, clocks: seq<nat>)
    requires |clocks| == |rs|
    ensures Selects(rs, MatchingAt(rs, f, clocks), Matching(rs, f, clocks))
    ensures forall i :: 0 <= i < |rs| ==> (i in MatchingAt(rs, f, clocks) <==> Matches(f, rs[i], clocks[i]))
    ensures forall j, k :: 0 <= j < k < |MatchingAt(rs, f, clocks)| ==>
              MatchingAt(rs, f, clocks)[j] < MatchingAt(rs, f, clocks)[k]
  {
    MatchingAtIsExact(rs, f, clocks);
    if rs != [] {
      var n := |rs| - 1;
      MatchingIsTheSubsequence(rs[..n], f, clocks[..n]);
      SelectsMore(rs, n, MatchingAt(rs[..n], f, clocks[..n]), Matching(rs[..n], f, clocks[..n]));
    }
  }

  /** A clock that shows `now` for `n` readings. */
  function Still(now: nat, n: nat): seq<nat> {
    seq(n, _ => now)
  }

  // ---------- masking ----------

  const MASKED_NAME := "***"

  function Mask(b: Booking): Booking {
    b.(username := MASKED_NAME, id := 0)
  }

  /** What `send_bookings_by_filter` puts on the socket for a matching record. */
  function Shown(b: Booking, shouldMask: bool, viewer: string): Booking {
    if shouldMask && b.username != viewer then Mask(b) else b
  }

  function ShownAll(rs: seq<Booking>, shouldMask: bool, viewer: string): (r: seq<Booking>)
    ensures |r| == |rs|
  {
    seq(|rs|, i requires 0 <= i < |rs| => Shown(rs[i], shouldMask, viewer))
  }
}
