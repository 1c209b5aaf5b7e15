# Verified model of the booking server

A Dafny model of a multi-process room booking system: a server that forks one child per client, three flat record files
(users, rooms, bookings) that all children share under `fcntl` read/write locks, a terminal client, and the binary
protocol between the two. `dafny verify dfyconfig.toml` checks all of it.

The model has four levels, and lemmas that join them.

* **Loops.** `BookingFile`, `RoomFile`, `UserFile`, `Source`, `Sink`, `Child` and `Client` are classes whose methods are the
  source's loops and handlers: a cursor moving over records, a record overwritten in place, a running maximum, a byte count.
  Each method's contract gives its result and the whole new state as a function of the old one
  (`Operations`, `Filters`, `Rooms`, `Accounts`, `Privacy`, `ServerChild`).
* **Locked sections.** `LockedSections` lets any number of children take locks on the bookings file and then read or write
  one record per step; `ScanSections` does so for the users and the rooms file. `SectionsAreAtomic` and `ScansAreAtomic`
  show that every run amounts to those functions applied one after the other.
* **Runs.** `Reservations` is the transition system whose steps are whole locked sections. Between its sections a child
  keeps what it learnt: a checked booking, an approval snapshot, an announced list length. `Histories`, `Consistency`,
  `Packing`, `Approvals`, `Listings` and `Scenarios` hold the theorems about runs; `Sessions` does the same for accounts
  and roles, and `Service` lets bookings and sessions run together.
* **Wire.** `Wire` and `Framing` take messages over split and interrupted transfers between hosts of either byte order.
  `Dialogue` is the product of the shipped client and one child, each taking its own steps over two streams of bytes;
  `Conversations` has concrete runs of it.

`RecordLevel` puts children that go through their phases, record by record, under the transition system: every run of them
is a run of whole sections with the same files and replies (`RunsAreRunsOfSections`), so the theorems about runs hold of
single record steps. `Refinement` relates the handlers to the transition systems (`ServeIsARun`, `ServeIsASessionStep`) and
the two passes of a list to the dialogue (`ListsAreSteadyExactly`). In all transition systems a label that is not enabled
changes nothing, so "every run" is "every list of labels". That the labels are enabled when they should be is proved
beside: which locks are granted, that sections can always be finished, and that operations, requests and exchanges can be
completed (`LocksAreGrantedExactly`, `SectionsEnd`, `OperationsComplete`, the `GetThrough` and `Complete` lemmas).

`Effects` says in fields what serving each request does and answers: which records change and how, which are listed and
what of them is shown, and that the record sent is the record stored.

## Double booking

An approval commits without looking at the stored status: `approve_booking` tests only that the booking exists and is not
over, although the comment beside the test (server_utils.c:829) also says "not pending". The conflict test that follows is
made on the request, which in the shipped client is empty but for the id, so it never finds anything
(`ClientApproveOnlySweeps`). What is true, and proved:

* In every force-free run, no pending booking overlaps an approved one in its room, and no user has two overlapping
  pending ones in a room (`ForceFreeRunsStaySafe`). Stale snapshots and approvals of rejected bookings do not break this.
* Approved bookings stay disjoint along a force-free run if and only if they were disjoint at the start and each committing
  approval finds its target clear of the other approved bookings (`RunDoubleBookingExactly`). A target stored as pending or
  approved always is, so it is enough that no approval commits onto a rejected booking.
* The excluded case happens, even when both administrators saw a pending booking (`DoubleBookingHappens`).

Force-free means without `force_booking_status`, which the client itself announces as able to leave an inconsistent
database. Runs are those of the shipped client's payloads: approvals carry an id only, creations carry status PENDING.

## Lists and session agreement

A list is counted under one read lock and sent under another, and nothing keeps the two passes together.

* For every filter and every interleaving, with the clock read at every record, what was counted plus what joined is what
  is sent plus what left (`ListsBalance`, and over runs `RecordLevelListsExactly` and `CountAgainstSendExactly`). Records
  leave only by ending or by a change of status, and join only by being new or by a change of status. A list falls short,
  and the child ends itself, exactly when more left than joined (`ListsFallShortExactly` and its special cases); for filters
  on fixed fields alone none can leave.
* If every list was sent as announced, client and child are in step at every idle point (`SteadyRunsAgree`).
* If not, the unread bytes of the first record too many are taken for the next reply header: its id for the operation, its
  room for the size. As long as no handler of the client takes those for a header, which can be read off the record
  (`NoReplyHeaderExactly`), the two sides are never in step again, so they are in step if and only if every list was sent as
  announced (`AgreementExactly`). Without that provision they can come back into step by chance: a user's own booking with
  id 200 in room 64 does it (`BackIntoStepByChance`).
* A single booking joining a list between its passes is enough to leave a record unread (`ExtraRecordStaysUnread`), a single
  rejection enough to cut a preview short (`RejectedPreviewFallsShort`).

## Privacy

The project's own README says that guests see only the list of rooms and users only their own bookings. The role tables also
let both list a room's bookings, with other people's names and ids masked; the model follows the tables, and
`OthersStayAnonymous` and `RoomListsAreAnonymousExactly` say what the masking achieves.

## Model

| member | source | states |
|---|---|---|
| Bookings.BookingFile.CreateBooking | server_utils.c:487-515 | from the write lock on, the scan computes the greatest id over the whole file, stops at the first conflict leaving the file alone, and otherwise appends exactly one PENDING record whose id wraps at 32 bits |
| Bookings.BookingFile.RejectBooking | server_utils.c:796-820 | with the clock read at each record and never going back: only the first record with the id that is pending and not over becomes REJECTED, in place; the whole scan is as good as one at the time of its last look |
| Bookings.BookingFile.ForceBookingStatus | server_utils.c:1110-1134 | only the first record with the id gets the given status byte |
| Bookings.BookingFile.HasBookingConflictNoLock | server_utils.c:782-795 | finds a conflicting record with another id if there is one, and leaves the cursor just behind the first |
| Bookings.BookingFile.CommitApproval | server_utils.c:835-868 | the read, step back, overwrite loop refines a map over the file: no record is skipped or treated twice, the length stays, the target is written from the snapshot; the conflict branch overwrites the conflicting record |
| Bookings.BookingFile.ApproveBooking | server_utils.c:821-869 | both halves together, failing on an unknown id and on a booking that is over |
| Bookings.BookingFile.FindFirstById | server_utils.c:597-618 | the first record with the id, or the zero record |
| Bookings.BookingFile.CountBookings | server_utils.c:619-639 | the count is the length of the filtered file, each record judged at the time it is read |
| Bookings.BookingFile.SendBookings | server_utils.c:644-675 | the records sent are the filtered file in order, up to the first failing send, with name and id masked exactly on other people's records when masking is on |
| Operations.ClientApproveOnlySweeps | server_utils.c:839-865 | for the shipped client's approval request the conflict branch is dead and the commit is the sweep alone |
| Operations.CreateEffect | server_utils.c:495-514 | a pending request is refused exactly when it overlaps an approved booking of the room or an unrejected one of the same user in it; otherwise one record joins, equal but for id and status |
| Operations.RejectEffect | server_utils.c:808-816 | with unique ids, record by record: exactly the pending, not yet ended record with the id becomes REJECTED, and the reply tells whether there was one |
| Operations.ForceEffect | server_utils.c:1122-1130 | with unique ids, record by record: exactly the record with the id gets the status |
| Operations.ApproveEffect | server_utils.c:847-868 | with unique ids, whatever the target's status: it is approved, every other pending booking of its room overlapping it is rejected, all else stays |
| Operations.ApproveRefusedExactly | server_utils.c:827-831 | with unique ids, an approval is refused and leaves the file alone if and only if no booking with the id has yet to end |
| Operations.ConflictBranchEffect | server_utils.c:839-846 | for a request with a range of its own: the first record in its way is overwritten by the rejected snapshot, and the approval fails |
| Filters.MatchingIsTheSubsequence | server_utils.c:631-635 | the filtered file holds every matching record exactly once, no other, in file order |
| Rooms.CreateRoomKeepsKeys | server_utils.c:292-325 | creating a room keeps names and ids unique and ids non-zero, and a new id is above all others |
| Rooms.RoomFile.CreateRoom | server_utils.c:292-325 | the loop, with its running maximum in a C `int`, refuses a taken sanitised name and otherwise appends the next id, short of the one maximum at which the sum overflows |
| Rooms.RoomFile.RoomIsThere | server_utils.c:356-379 | true exactly for stored room ids |
| LockedSections.MutualExclusion | server_utils.c:102-154 | in every run of single record steps a writer never coexists with another lock holder, and the file never changes under a reader |
| LockedSections.SectionsAreAtomic | server_utils.c:478-515 | the sections on the bookings file completed in any run are, in release order, atomic operations each starting from the file the previous one left, with equal results and files; clock readings lie between lock and unlock and never go back |
| LockedSections.LocksAreGrantedExactly | server_utils.c:102-154 | a lock is granted if and only if nobody is inside a section, or this section and all those inside only read |
| LockedSections.SectionsEnd | server_utils.c:478-515 | whatever state a run has reached, a child inside a section can go on to the end of it and let go |
| LockedSections.OperationsComplete | server_utils.c:102-154 | on a file nobody holds every operation can be begun and completed, is then the one atomic event of the history, and leaves no lock |
| LockedSections.ReadersShare | server_utils.c:130-142 | two children can be inside any two reading sections at once |
| ScanSections.ScansAreAtomic | server_utils.c:102-154 | so are the sections on the users and rooms files, single scans that append at most once |
| ScanSections.LocksAreGrantedExactly | server_utils.c:102-154 | the same rule for the locks on the users and rooms files |
| ScanSections.RequestsComplete | server_utils.c:186-218 | on a file nobody holds every login, signup, room search and room creation can be begun and is then the one request completed, with the file and the result of an atomic scan and no lock left |
| ScanSections.UserScans | server_utils.c:156-218 | an atomic scan of the users file is the login or the signup, with its reply |
| ScanSections.RoomScans | server_utils.c:292-379 | an atomic scan of the rooms file is the search or the creation of a room |
| ScanSections.UsernamesStayUnique | server_utils.c:186-218 | usernames stay unique under concurrent signups, children reading and writing one record at a time |
| ScanSections.RoomNamesStayUnique | server_utils.c:292-325 | so do the names of rooms under concurrent creations |
| LockedSections.ReadKeeps | server_utils.c:497-505 | one `fread` of any section, judged against the file at its lock point |
| LockedSections.WriteKeeps | server_utils.c:849-865 | one seek back and `fwrite` of any section, judged against the file at its lock point |
| RecordLevel.RunsAreRunsOfSections | server_utils.c:102-154 | every run of children stepping one record at a time, with their checks and lookups in between, is a run of whole sections with the same committed bookings, rooms and unfinished business, and the same replies of all writing sections |
| RecordLevel.RecordsStayInPlace | server_utils.c:847-863 | at that grain, too, history is append-only, non-zero ids stay distinct and bookings well placed |
| RecordLevel.RulesHoldUnderEveryReader | server_utils.c:478-515 | at that grain the committed file, and whatever file a reader is looking at, obeys the booking rules in force-free runs, and statuses only climb |
| RecordLevel.RecordLevelDoubleBookingExactly | server_utils.c:821-869 | at that grain the committed file is free of double bookings if and only if it was at the start and every released approval found its target clear when it took the lock |
| RecordLevel.RecordLevelListsExactly | server_utils.c:619-700 | at that grain, for a counting and a later sending section of one child: announced count plus joiners is records sent plus leavers, the clock read at every record; and, nothing having joined, the list falls short unless every booking counted remains |
| RecordLevel.ReadsGetThrough | server_utils.c:597-675 | on a free file a lookup, count or send, taken record by record, can be completed and leaves file and replies as they were |
| RecordLevel.CreationsGetThrough | server_utils.c:478-515 | a booking for an existing room and whole slots not yet begun can be created: single record steps end in the file and reply of the whole operation |
| RecordLevel.ApprovalsGetThrough | server_utils.c:821-869 | so can a booking that is there and not over be approved, lookup and commit being two sections |
| RecordLevel.RejectionsGetThrough | server_utils.c:796-820 | and any rejection |
| RecordLevel.ForcingsGetThrough | server_utils.c:1110-1134 | and any forcing |
| Refinement.ServeIsARun | server_child.c:28-61 | a child serving any request of the shipped client, whatever the others hold, makes a run of the transition system and leaves the others' unfinished business alone |
| Refinement.ServeIsASessionStep | server_utils.c:219-290 | on the users file and the sessions, serving any request is one step of the session system, whoever else is connected |
| Refinement.ListsAreSteadyExactly | server_utils.c:684-700 | record by record, a list is sent as announced if and only if as many records joined as left between its passes, its child ends itself if and only if fewer joined, and whether a record too many looks like a header can be read off it |
| Refinement.OnlyListedRolesWrite | server_child.c:38-52 | a refused request changes nothing; bookings, rooms and users change only through a role whose table lists the operation |
| Reservations.RunKeepsInv | server_utils.c:478-515 | in every run non-zero ids stay distinct, stored bookings keep their room and whole-slot range, and in-flight data stays true of the files |
| Reservations.StepExtends | server_utils.c:809-813 | no step moves or removes a record or changes anything in it but the status |
| Reservations.StableMatchingGrows | server_utils.c:554-564 | a filter on fixed fields never selects fewer records from a later file |
| Histories.HistoryIsAppendOnly | server_utils.c:847-863 | in every run, forced or not, records keep position, id, room, name, start and end for ever, and every approval snapshot in flight agrees with its stored record |
| Histories.StoredBookingsAreWellPlaced | server_utils.c:439-450 | every stored booking has a non-empty whole-slot range and an existing room, although the room is checked before the bookings lock is taken |
| Consistency.NewBookingsLieAhead | server_utils.c:439-450 | in every run, every booking stored since its beginning starts no earlier than the clock then showed |
| Histories.CreateKeepsIdsExactly | server_utils.c:508-511 | creating keeps ids unique and non-zero if and only if the greatest id is below 2^32-1, and then the new id exceeds all others |
| Histories.RunIdsExactly | server_utils.c:478-515 | over whole runs, from files in any id order: ids end up unique and non-zero if and only if no step created past the last id |
| Histories.ShortRunsKeepIds | server_utils.c:478-515 | a run no longer than the number of ids left never runs out |
| Histories.TwoPhaseApproveLinearizes | server_utils.c:827-868 | whatever other children do between its two locked sections, an approval has file and reply of one atomic approval at its commit with the past-time test taken at the snapshot; a failing one is the atomic failure at the snapshot |
| Histories.CountAgreesWithSend | server_utils.c:684-700 | with file and clock unchanged, the send pass sends as many records as were announced |
| Histories.StableListsNeverFallShort | server_utils.c:927-943 | for all bookings and for time ranges the records sent are at least the announced count under every interleaving |
| Listings.CountedAndJoinedIsSentAndLeft | server_utils.c:619-675 | for any filter, any two files and any clock readings: what the first pass counted plus what joined is what the second sends plus what left |
| Listings.LeaversAndJoinersExactly | server_utils.c:516-596 | a counted record leaves exactly by ending or by a status no longer listed; a record joins exactly by being new or by a status listed only now |
| Listings.StableListsAgreeExactly | server_utils.c:554-564 | a list on fixed fields has the announced length if and only if no record appended in between belongs to it |
| Listings.ListsBalance | server_utils.c:619-675 | for every filter, the second file being later and each record judged at the time it is read: announced count plus joiners is records sent plus leavers, with the cause of each |
| Listings.RemainingListsNeverFallShort | server_utils.c:697-700 | as long as every counted booking is still to be listed no list falls short, whatever else happens |
| Listings.ListsFallShortExactly | server_utils.c:697-700 | nothing having been created or turned to a listed status, a list falls short if and only if a counted booking has ended or lost its listed status |
| Listings.ExpiringListsFallShortExactly | server_utils.c:525-553 | lists from now on by owner, name part or room, nothing created: short if and only if a counted booking has ended |
| Listings.PreviewsFallShortExactly | server_utils.c:723-747 | the preview before a creation, nothing created or un-rejected: short if and only if a counted booking has ended or been rejected |
| Listings.CountAgainstSendExactly | server_utils.c:684-700 | the balance holds between the two passes of a child over every run of the others |
| Consistency.ForceFreeRunsStaySafe | server_utils.c:429-438 | in every force-free run no pending booking overlaps an approved one in its room and no user has two overlapping pending ones in a room |
| Consistency.SweepDoubleBookingExactly | server_utils.c:847-865 | after a commit approved bookings are disjoint if and only if they were and the target overlaps no other approved one |
| Consistency.StepDoubleBookingExactly | server_utils.c:821-869 | the same for any force-free step |
| Consistency.RunDoubleBookingExactly | server_utils.c:821-869 | the same for whole force-free runs |
| Consistency.UnrejectedTargetIsClear | server_utils.c:501-505 | a target stored as pending or approved at the commit overlaps no other approved booking |
| Consistency.NoDoubleBookingWithoutResurrection | server_utils.c:821-869 | no double booking along a force-free run in which no approval commits onto a rejected booking |
| Consistency.StatusIsMonotone | server_utils.c:809-813 | in every force-free run statuses only climb PENDING, REJECTED, APPROVED, and all status changes together are at most two per record |
| Consistency.PastBookingsAreNeverApproved | server_utils.c:827-831 | a booking that was over when a force-free run began, and not approved, is never approved in it |
| Approvals.ApprovalsHaveClosedForm | server_utils.c:821-869 | any list of fresh approvals at one time leaves members approved, pending records clashing with a member rejected, the rest untouched |
| Approvals.OrderDoesNotMatter | server_utils.c:821-869 | two lists approving the same bookings leave the same file |
| Packing.PackingBound | server_utils.c:426-450 | disjoint whole-slot bookings inside a window last at most as long as it and number at most one per 3600 seconds |
| Packing.SelectionIsExact | server_utils.c:429-450 | the bookings the bounds are about, by room, status, user and window, each as often as it is stored |
| Packing.PendingBookingsFit | server_utils.c:478-515 | after every force-free run this bounds each user's pending bookings per room |
| Packing.ApprovedBookingsFit | server_utils.c:821-869 | and the approved bookings per room, under the exact no-double-booking condition |
| Scenarios.DoubleBookingHappens | server_utils.c:827-868 | a force-free run from a consistent file that ends in a double booking, both approvals being told they succeeded |
| Scenarios.ExpiringListFallsShort | server_utils.c:547-553 | a list from the current time on can announce a booking that has ended before it is sent |
| Scenarios.RejectedPreviewFallsShort | server_utils.c:587-596 | a preview can announce a booking that is rejected before it is sent |
| Scenarios.SampleIsInitial | populate.c:23-81 | the sample database meets the assumptions of the theorems about runs |
| Privacy.OthersStayAnonymous | server_utils.c:946-985 | databases differing only in names and ids of other people's bookings get a guest or user the same reply to every listing request and to the preview |
| Privacy.RoomListsAreAnonymousExactly | server_utils.c:946-985 | a room's list gives a guest or user no id or name if and only if it holds no booking under the viewer's own name, which for guests is "guest" |
| Privacy.AdministratorsSeeAll | server_utils.c:921-944 | an administrator's list of all bookings tells any two different files apart |
| Privacy.IdRepliesAgree | server_utils.c:1018-1045 | a lookup by id does not tell an unknown id from somebody else's booking |
| Text.SanitizeIsIdempotent | lib/protocol.c:115-127 | sanitising twice is sanitising once |
| Text.SanitizeAt | lib/protocol.c:115-127 | character by character: up to the first line end colons and blanks become dots, all else stays, and nothing follows |
| Text.SanitizeString | lib/protocol.c:115-127 | the in-place loop cuts the C string of the buffer at the first line end and replaces colons and blanks before it, terminating a full buffer just behind its end |
| Roles.IsListed | lib/protocol.c:148-174 | the table search finds exactly the listed opcodes |
| Roles.IsValidOpcodeForUserByType | lib/protocol.c:175-186 | each known type gets its own table, any other type nothing |
| Roles.TablesExactly | lib/protocol.c:17-44 | who may do what, number by number, for every opcode and every type of user |
| Roles.WritersByRole | lib/protocol.c:17-44 | writing operations are listed for one role each: administration for superusers, creation for users, login and signup for guests |
| Accounts.UserFile.Login | server_utils.c:156-185 | the first record with the name decides; a wrong password yields nobody |
| Accounts.UserFile.Signup | server_utils.c:186-218 | a taken name leaves the file alone, a free one is appended |
| Accounts.LoginSucceedsExactly | server_utils.c:168-184 | with unique names a login succeeds if and only if name and password are stored together, and yields the stored type |
| Sessions.SessionsAreBacked | server_utils.c:186-290 | in every run usernames stay unique, signups add only ordinary users, and every session that is not a guest's holds a stored name and type |
| Sessions.AdministratorsAreOld | server_utils.c:245-290 | in every run each administrator with a session was in the users file from the start |
| Sessions.AnyoneCanConnect | server_child.c:14-17 | a new connection starts as a guest, and its end leaves nothing behind |
| Service.RunsProject | server_child.c:28-61 | bookings and sessions running together are a run of each, so the theorems about both hold of the whole |
| Service.NewBookingsAreUsers | server_utils.c:765-768 | in every interleaved run each newly stored booking carries the name of a stored ordinary user |
| Service.ChangesAreAuthorised | server_child.c:38-52 | in every interleaved run a step that changes the rooms or a stored booking is taken for an administrator the users file held from the start |
| Service.CreationsGetThrough | server_utils.c:706-780 | in the interleaved system an idle ordinary user can create a booking under the stated conditions, and the file is that of the operation |
| Service.ApprovalsGetThrough | server_utils.c:821-894 | an idle administrator can approve what is there and not over |
| Service.AdministrationGetsThrough | server_utils.c:895-920 | and reject, force and create rooms, with the files of those operations |
| Service.ListsGetThroughExactly | server_utils.c:619-700 | a list is begun exactly by the roles it is for; with nothing in between it can be sent, and both passes together change nothing |
| Service.AccountsGetThrough | server_utils.c:219-290 | whoever has nothing unfinished can log in, sign up, log out and leave as the session system lets it |
| Sessions.SignupThenLogin | client_utils.c:124-198 | after a successful signup the same typed credentials log in as the same user in every later state |
| Sessions.SignupSucceedsExactly | server_utils.c:245-279 | a signup succeeds if and only if the sanitised lengths fit and the sanitised name is free |
| Wire.FieldCrosses | lib/protocol.c:68-113 | a converted integer has the same bytes on every host and is read back unchanged by every host |
| Wire.HeaderCrosses | lib/protocol.c:68-77 | headers survive between hosts of any byte orders |
| Wire.RoomCrosses | lib/protocol.c:82-89 | rooms do |
| Wire.BookingCrosses | lib/protocol.c:90-103 | bookings do |
| Wire.TimeRangeCrosses | lib/protocol.c:104-113 | time ranges do |
| Wire.U32OnTheWire | lib/protocol.c:68-77 | a 32-bit number crosses with its most significant byte first |
| Wire.HeaderLayout | lib/protocol.c:68-77 | a header is its operation, then its payload size |
| Wire.RoomLayout | lib/protocol.c:82-89 | a room is its id, then its name |
| Wire.BookingLayout | lib/protocol.c:90-103 | where each field of a booking lies among its 64 bytes |
| Wire.TimeRangeLayout | lib/protocol.c:104-113 | a time range is its start, then its end |
| Wire.HeadersOnAnyHost | lib/protocol.c:68-77 | hosts of both orders read the same header out of any bytes and write the same bytes for it |
| Wire.BookingStartsLikeAHeader | lib/protocol.c:90-96 | the first eight bytes of a booking, taken for a header, are its id and its room |
| Framing.FrameParts | lib/protocol.c:197-237 | reading a header and its payload undoes sending them and leaves exactly the following messages |
| Framing.StreamRoundTrip | lib/protocol.c:197-237 | any list of messages comes out of the bytes as it went in, with nothing left over, for any byte orders of the two hosts |
| Framing.Source.ReadExact | lib/protocol.c:197-210 | under any splits and finitely many interrupts the loop ends with exactly the bytes asked for, or all there are, and takes no more off the stream |
| Framing.Source.ReceiveAll | server_child.c:28-36 | under any splits and interrupts and for any bytes, the messages received are the complete ones the bytes stand for, and the end is clean exactly if nothing is left over |
| Framing.Sink.SendHeaderAndPayload | lib/protocol.c:211-237 | what is sent is a prefix of the frame, as long as the returned number, and the whole frame if no call fails |
| Framing.SendAll | lib/protocol.c:211-237 | messages sent one after the other put exactly their stream on the socket |
| Framing.Transfer | lib/protocol.c:197-237 | from one end to the other: whatever the sockets take and deliver per call, with finitely many interrupts and any byte orders, the messages arrive as they were sent |
| ServerChild.Child.ReplyWithList | server_utils.c:684-700 | the announced size is that of the records that follow |
| ServerChild.Child.HandleListing | server_utils.c:946-1109 | each listing handler sends the reply the privacy theorem is about, for its filter and masking |
| ServerChild.Child.Dispatch | server_child.c:38-52 | a request outside the role's table gets an error and changes nothing; any other goes to its handler |
| Effects.CreationIsServed | server_utils.c:706-780 | a creation is stored if and only if the room exists, the range is whole slots not yet begun, and neither an approved booking of the room nor an unrejected one of the user in it overlaps it; the one record that joins, pending, with the next id and the session's name, is the one sent (an error if the ids have run out); otherwise an error with nothing changed |
| Effects.ApprovalIsServed | server_utils.c:821-894 | record by record, which bookings an approval changes, and that the reply is the stored, approved record, or an error with nothing changed |
| Effects.RejectionIsServed | server_utils.c:796-920 | the same for a rejection |
| Effects.ForcingIsServed | server_utils.c:1110-1163 | the same for forcing a status |
| Effects.RoomCreationIsServed | server_utils.c:292-404 | a room is stored if and only if its sanitised name is free, with the next id, and sent as stored; one without a name is stored and answered with an error |
| Effects.LoginIsServed | server_utils.c:219-244 | the session and the reply get the stored type if and only if name and password are stored together; otherwise an error, and the session stays |
| Effects.SignupIsServed | server_utils.c:245-279 | an ordinary user is stored and answered if and only if both lengths fit and the name is free; otherwise an error with nothing changed |
| Effects.LogoutIsServed | server_utils.c:280-290 | the session becomes a guest's |
| Effects.OthersAreRefused | server_child.c:38-46 | every request of a wrong role, number by number, gets an error and changes nothing |
| Effects.RoomIsListed | server_utils.c:946-985 | exactly the bookings of the room not yet over, in file order; of other people's, all but administrators see room, times and status, id 0 and "***" |
| Effects.PreviewIsListed | server_utils.c:706-747 | the same without the rejected ones |
| Effects.OwnAreListed | server_utils.c:676-705 | exactly the user's own bookings not yet over |
| Effects.StatusIsListed | server_utils.c:1078-1109 | exactly the bookings of this status not yet over, of ordinary users only their own |
| Effects.RangeIsListed | server_utils.c:1046-1077 | exactly the bookings overlapping the range, over or not, of ordinary users only their own |
| Effects.NamePartIsListed | server_utils.c:986-1017 | exactly the bookings not yet over whose owner's name has the text somewhere in it |
| Effects.AllAreListed | server_utils.c:921-945 | an administrator gets the whole file as it is |
| Effects.RoomsAreListed | server_utils.c:405-424 | everybody gets all rooms as they are |
| Effects.OneIsListed | server_utils.c:1018-1045 | the booking with the id, if it is there and the user may see it, otherwise an error |
| Effects.MissingRoomsAreRefused | server_utils.c:946-966 | a room that does not exist has neither list nor preview |
| ShippedClient.RepliesAreWhole | server_utils.c:219-279 | every reply is an error header, or a header announcing exactly the records after it |
| ShippedClient.Client.ReadRecords | client_utils.c:284-299 | the loop over an announced count takes exactly that many records |
| ShippedClient.Client.HandleRequest | client_utils.c:492-912 | the records shown are exactly those of the reply, and nothing is unread |
| ShippedClient.Client.HandleCreateBooking | client_utils.c:366-491 | the preview shown and the record shown are the child's, on every cancel and error path, and nothing is unread |
| ShippedClient.Client.Execute | client.c:39-76 | a request outside the client's role table is never sent; any other leaves both sides in step |
| Dialogue.SteadyRunsAgree | client_utils.c:366-491 | in every interleaving of client and child whose lists are sent as announced, at every idle point and whenever only the user can go on: same user, nothing unread in either direction, both waiting |
| Dialogue.AgreementExactly | client_utils.c:492-530 | provided no first record too many starts like the header of a reply, that is so if and only if every list was sent as announced |
| Dialogue.NoReplyHeaderExactly | client_utils.c:800-900 | which ids and rooms no handler of the client takes for the header of a reply |
| Dialogue.SidesAgree | server_child.c:38-46 | as long as lists are sent as announced neither side loses the other, and the child's role check never refuses |
| Dialogue.SomebodyCanStep | server_child.c:28-61 | as long as lists are sent as announced the two sides never wait for each other |
| Dialogue.SizesExactly | client_utils.c:492-530 | what every request brings and every reply carries, in bytes |
| Dialogue.ListsOfAnyLength | server_utils.c:684-700 | the dialogue lets a list of bookings be announced at one length and sent at any other |
| Conversations.ExchangesComplete | client_utils.c:492-912 | every exchange the role allows, with every outcome sent as announced, can be completed, and leaves both sides idle with the user the reply names |
| Conversations.LogoutsComplete | client_utils.c:199-222 | so can logging out, and both sides are guests |
| Conversations.CreationsComplete | client_utils.c:366-491 | so can a creation with its preview, the user going on or not |
| Conversations.SplitsAreFree | lib/protocol.c:211-237 | however a reply is split on its way, client and child end up as if it had been sent at once |
| Conversations.ExtraRecordStaysUnread | server_utils.c:968-981 | a booking joining a list between count and send leaves its bytes unread on an idle connection |
| Conversations.BackIntoStepByChance | client_utils.c:769-795 | an own booking with id 200 in room 64, sent although not announced, is taken for a reply header, and the two sides come back into step |

## Left out

- Sockets, `fork` and `exec`, keepalive, signals, settings files and address parsing: operating-system plumbing.
- Terminal input and output, `mktime`, `localtime` and the client's date checks: user input is an arbitrary value, the clock a number that never goes back.
- Failure returns of `fopen`, `malloc` and `fcntl`, and crashes inside a locked section: every opened section completes.
- stdio buffering: a file is a sequence with a cursor. The approval loop reads right after writing without repositioning, which section 7.21.5.3 of C11 does not permit; the intended sequential behaviour is modelled.
- Bytes after the NUL of a fixed-size string, and struct padding (zero in `Wire`): names are C strings.
- Scheduling: that an operation can be completed is proved, not that the operating system lets every waiting child have its lock in the end.
- Byte order of the status-list payload, which is sent without conversion: not part of `Wire`.
- `read_exact` at the end of the stream with a stale `EINTR` in `errno`: an end of stream is modelled with a clean `errno`.
- Wrap-around of `payload_size` for very long lists.
- Text.SanitizeString: of a full buffer at the very end of the program's memory, where the source writes behind it.
- Rooms.RoomFile.CreateRoom: not at a greatest room id of 2^31-1, where adding one to a C `int` overflows; `Effects.RoomCreationIsServed` takes the wrapped sum there.
- Payload size checks and short reads in the handlers of `Child`: the sizes are in `Dialogue`, the short reads in `Framing`.
- RecordLevel.RunsAreRunsOfSections: counting and sending a list leave no trace in the run of sections, since their passes read the clock at every record; `RecordLevelListsExactly` is about them.
- Dialogue.AgreementExactly: says nothing of runs in which the first record too many starts like the header of a reply, where `BackIntoStepByChance` shows it to fail.
- Histories.TwoPhaseApproveLinearizes: and all theorems about runs assume the shipped client's approval request; the conflict branch for other requests is in `CommitApproval` only.
- Refinement.ServeIsARun: the child is not interrupted between its sections there; `RecordLevel` and the theorems about runs have the interleavings.
- ServerChild.Child.ReplyWithList: file and clock stand still between its two passes; `Listings` says what happens otherwise.
- ServerChild.Child.HandleListing: the same.
- ShippedClient.Client.HandleRequest: the child answers at once; independent steps of the two sides are in `Dialogue`, which models both as state machines on values.
- ShippedClient.Client.HandleCreateBooking: the same, the cancel message being a flag of the call.
- ShippedClient.Client.Execute: the same.
- The search of the handler tables by opcode: a case distinction in `Dispatch` and `Execute`.
- Opcode descriptions, `has_booking_conflict`, and the `match_` filters no handler uses: dead or easy code.
