/** The rooms file. */
module Rooms {
  import opened Records
  import opened Text

  const ZERO_ROOM := Room(0, "")

  predicate NameTaken(rooms: seq<Room>, name: string) {
    exists i :: 0 <= i < |rooms| && rooms[i].name == name
  }

  function GreatestRoom(rooms: seq<Room>): (g: U32)
    ensures forall i :: 0 <= i < |rooms| ==> rooms[i].id <= g
    ensures g == 0 || exists i :: 0 <= i < |rooms| && rooms[i].id == g
  {
    if rooms == [] then 0
    else
      var n := |rooms| - 1;
      var g := GreatestRoom(rooms[..n]);
      assert forall i :: 0 <= i < n ==> rooms[i] == rooms[..n][i];
      if rooms[n].id > g then rooms[n].id else g
  }

  lemma GreatestRoomOfPrefix(rooms: seq<Room>, n: nat)
    requires n < |rooms|
    ensures GreatestRoom(rooms[..n + 1])
         == if rooms[n].id > GreatestRoom(rooms[..n]) then rooms[n].id else GreatestRoom(rooms[..n])
  {
    assert rooms[..n + 1][..n] == rooms[..n];
  }

  function CreateRoomIn(rooms: seq<Room>, rawName: string): (seq<Room>, Room) {
    var name := Sanitize(rawName);
    if NameTaken(rooms, name) then (rooms, ZERO_ROOM)
    else
      var created := Room((GreatestRoom(rooms) + 1) % 0x1_0000_0000, name);
      (rooms + [created], created)
  }

  /** Names and ids stay unique, ids stay non-zero, and the new id is above all others. */
  lemma CreateRoomKeepsKeys(rooms: seq<Room>, rawName: string)
    requires forall i, j :: 0 <= i < j < |rooms| ==> rooms[i].id != rooms[j].id && rooms[i].name != rooms[j].name
    requires forall i :: 0 <= i < |rooms| ==> 0 < rooms[i].id < U32_MAX
    ensures var (after, created) := CreateRoomIn(rooms, rawName);
      && (forall i, j :: 0 <= i < j < |after| ==> after[i].id != after[j].id && after[i].name != after[j].name)
      && (forall i :: 0 <= i < |after| ==> 0 < after[i].id)
      && (created != ZERO_ROOM <==> after == rooms + [created])
      && (created != ZERO_ROOM ==> forall i :: 0 <= i < |rooms| ==> rooms[i].id < created.id)
  {
    if !NameTaken(rooms, Sanitize(rawName)) {
      var g := GreatestRoom(rooms);
      assert g < U32_MAX;
      assert CreateRoomIn(rooms, rawName).1 == Room(g + 1, Sanitize(rawName));
    }
  }

  // ---------- the running maximum, kept in a C `int` ----------

  const INT_MAX := 0x7FFF_FFFF

  function AsInt(n: U32): (i: int)
    ensures -INT_MAX - 1 <= i <= INT_MAX
  {
    if n <= INT_MAX then n else n - 0x1_0000_0000
  }

  function AsUnsigned(i: int): (n: U32)
    requires -INT_MAX - 1 <= i <= INT_MAX
  {
    if i >= 0 then i else i + 0x1_0000_0000
  }

  /** Adding one to the running maximum does not overflow. */
  predicate NextRoomIdFits(rooms: seq<Room>) {
    AsInt(GreatestRoom(rooms)) < INT_MAX
  }

  lemma ConversionsCancel(n: U32)
    ensures AsUnsigned(AsInt(n)) == n
    ensures AsInt(n) < INT_MAX ==> AsUnsigned(AsInt(n) + 1) == (n + 1) % 0x1_0000_0000
  {}

  lemma MaximumOneMore(rooms: seq<Room>, n: nat, greatest: int)
    requires n < |rooms| && greatest == AsInt(GreatestRoom(rooms[..n]))
    ensures AsInt(GreatestRoom(rooms[..n + 1]))
         == if rooms[n].id > AsUnsigned(greatest) then AsInt(rooms[n].id) else greatest
  {
    GreatestRoomOfPrefix(rooms, n);
    ConversionsCancel(GreatestRoom(rooms[..n]));
  }

  /** The scan has come past n rooms: none has the name, and the running maximum is theirs. */
  predicate ScannedFree(rooms: seq<Room>, rawName: string, n: nat, greatest: int) {
    && n <= |rooms| && greatest == AsInt(GreatestRoom(rooms[..n]))
    && forall i :: 0 <= i < n ==> rooms[i].name != Sanitize(rawName)
  }

  lemma ScannedOneMore(rooms: seq<Room>, rawName: string, n: nat, greatest: int)
    requires ScannedFree(rooms, rawName, n, greatest) && n < |rooms|
    ensures if rooms[n].name == Sanitize(rawName) then CreateRoomIn(rooms, rawName) == (rooms, ZERO_ROOM)
            else ScannedFree(rooms, rawName, n + 1,
                             if rooms[n].id > AsUnsigned(greatest) then AsInt(rooms[n].id) else greatest)
  {
    MaximumOneMore(rooms, n, greatest);
  }

  lemma ScannedToTheEnd(rooms: seq<Room>, rawName: string, greatest: int)
    requires ScannedFree(rooms, rawName, |rooms|, greatest)
    requires NextRoomIdFits(rooms) || NameTaken(rooms, Sanitize(rawName))
    ensures NextRoomIdFits(rooms)
    ensures var created := Room(AsUnsigned(greatest + 1), Sanitize(rawName));
      CreateRoomIn(rooms, rawName) == (rooms + [created], created)
  {
    assert rooms[..|rooms|] == rooms;
    ConversionsCancel(GreatestRoom(rooms));
  }

  class RoomFile {
    var records: seq<Room>

    constructor (contents: seq<Room>)
      ensures records == contents
    {
      records := contents;
    }

    method RoomIsThere(id: U32) returns (found: bool)
      ensures found == RoomExists(records, id)
    {
      for i := 0 to |records|
        invariant forall j :: 0 <= j < i ==> records[j].id != id
      {
        if records[i].id == id {
          return true;
        }
      }
      return false;
    }

    method CreateRoom(rawName: string) returns (created: Room)
      requires NextRoomIdFits(records) || NameTaken(records, Sanitize(rawName))
      modifies this
      ensures (records, created) == CreateRoomIn(old(records), rawName)
    {
      var name := Sanitize(rawName);
      var greatest := 0;
      for i := 0 to |records|
        invariant records == old(records) && -INT_MAX - 1 <= greatest <= INT_MAX
        invariant ScannedFree(records, rawName, i, greatest)
      {
        ScannedOneMore(records, rawName, i, greatest);
        if records[i].name == name {
          return ZERO_ROOM;
        }
        if records[i].id > AsUnsigned(greatest) {
          greatest := AsInt(records[i].id);
        }
      }
      ScannedToTheEnd(records, rawName, greatest);
      created := Room(AsUnsigned(greatest + 1), name);
      records := records + [created];
    }
  }
}
