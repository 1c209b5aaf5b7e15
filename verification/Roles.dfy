/** Operation codes and the three role tables. */
module Roles {
  import opened Records

  const OPCODE_CANCEL := 1
  const OPCODE_LOGIN := 100
  const OPCODE_SIGNUP := 101
  const OPCODE_LOGOUT := 102
  const OPCODE_CREATE_BOOKING := 103
  const OPCODE_ROOMS_LIST := 104
  const OPCODE_BOOKINGS_LIST_BY_ROOM_ID := 105
  const OPCODE_USERS_BOOKINGS_LIST := 106
  const OPCODE_BOOKINGS_LIST_BY_BOOKING_ID := 107
  const OPCODE_BOOKINGS_LIST_BY_STATUS := 108
  const OPCODE_BOOKINGS_LIST_BY_TIME_RANGE := 109
  const OPCODE_CREATE_ROOM := 150
  const OPCODE_APPROVE_BOOKING := 151
  const OPCODE_REJECT_BOOKING := 152
  const OPCODE_BOOKINGS_LIST_SUPERUSER := 153
  const OPCODE_BOOKINGS_LIST_BY_USERNAME := 154
  const OPCODE_FORCE_BOOKING_STATUS := 155
  const OPCODE_OK := 200
  const OPCODE_ERROR := 201

  const GUEST_OPCODES: seq<int> :=
    [OPCODE_LOGIN, OPCODE_SIGNUP, OPCODE_ROOMS_LIST, OPCODE_BOOKINGS_LIST_BY_ROOM_ID]

  const USER_OPCODES: seq<int> :=
    [OPCODE_ROOMS_LIST, OPCODE_CREATE_BOOKING, OPCODE_USERS_BOOKINGS_LIST, OPCODE_BOOKINGS_LIST_BY_ROOM_ID,
     OPCODE_BOOKINGS_LIST_BY_BOOKING_ID, OPCODE_BOOKINGS_LIST_BY_STATUS, OPCODE_BOOKINGS_LIST_BY_TIME_RANGE,
     OPCODE_LOGOUT]

  const SUPERUSER_OPCODES: seq<int> :=
    [OPCODE_LOGOUT, OPCODE_ROOMS_LIST, OPCODE_BOOKINGS_LIST_BY_ROOM_ID, OPCODE_BOOKINGS_LIST_BY_BOOKING_ID,
     OPCODE_BOOKINGS_LIST_BY_STATUS, OPCODE_BOOKINGS_LIST_BY_TIME_RANGE, OPCODE_CREATE_ROOM, OPCODE_APPROVE_BOOKING,
     OPCODE_REJECT_BOOKING, OPCODE_BOOKINGS_LIST_SUPERUSER, OPCODE_BOOKINGS_LIST_BY_USERNAME,
     OPCODE_FORCE_BOOKING_STATUS]

  function Table(userType: Byte): seq<int> {
    if userType == GUEST then GUEST_OPCODES
    else if userType == USER then USER_OPCODES
    else if userType == SUPERUSER then SUPERUSER_OPCODES
    else []
  }

  predicate Allowed(opcode: int, userType: Byte) {
    opcode in Table(userType)
  }

  /** What every session starts as, and goes back to on logout. */
  const GUEST_USER := User("guest", GUEST)

  /** The search loop of the `is_valid_opcode_for_...` family. */
  method IsListed(table: seq<int>, opcode: int) returns (found: bool)
    ensures found <==> opcode in table
  {
    for i := 0 to |table|
      invariant opcode !in table[..i]
    {
      if table[i] == opcode {
        return true;
      }
    }
    return false;
  }

  method IsValidOpcodeForUserByType(opcode: int, userType: Byte) returns (valid: bool)
    ensures valid <==> Allowed(opcode, userType)
  {
    match userType {
      case 0 => valid := IsListed(GUEST_OPCODES, opcode);
      case 1 => valid := IsListed(USER_OPCODES, opcode);
      case 2 => valid := IsListed(SUPERUSER_OPCODES, opcode);
      case _ => return false;
    }
  }

  /** Operations whose handler writes the rooms or the bookings file. */
  const ADMINISTRATIVE: seq<int> :=
    [OPCODE_CREATE_ROOM, OPCODE_APPROVE_BOOKING, OPCODE_REJECT_BOOKING, OPCODE_FORCE_BOOKING_STATUS]

  lemma WritersByRole(opcode: int, userType: Byte)
    requires Allowed(opcode, userType)
    ensures opcode in ADMINISTRATIVE ==> userType == SUPERUSER
    ensures opcode == OPCODE_CREATE_BOOKING ==> userType == USER
    ensures opcode == OPCODE_LOGIN || opcode == OPCODE_SIGNUP <==> userType == GUEST && opcode in GUEST_OPCODES[..2]
  {}

  /** Who may do what, by numbers: 0 guests, 1 ordinary users, 2 administrators. */
  lemma TablesExactly(opcode: int, userType: Byte)
    ensures Allowed(opcode, userType) <==>
              || (userType == 0 && (opcode == 100 || opcode == 101 || opcode == 104 || opcode == 105))
              || (userType == 1 && 102 <= opcode <= 109)
              || (userType == 2 && (opcode == 102 || opcode == 104 || opcode == 105 || 107 <= opcode <= 109
                                    || 150 <= opcode <= 155))
  {}
}
