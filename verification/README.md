# A verified model of the chat cluster

The repository is a chat system: a C++ server that keeps connections, a MySQL database and Redis in step, a console
client that retransmits what is not acknowledged, an encrypted frame format between the two, and the JSON library
`thirdparty/json.hpp` that carries every message. This project models the four parts in Dafny and proves what they
keep over all inputs and all runs. `dafny verify dfyconfig.toml` checks everything.

## The parts

**JSON documents** (`Json*.dfy`). `Json` is the data type of values with both 64-bit integer kinds. `JsonOrder` has the
comparison operators, `JsonPointer` the locations of RFC 6901, `JsonPatch` the interpreter of RFC 6902 patches,
`JsonPatchLaws` what each operation does to every location, `JsonDiff`
the algorithm that makes such patches, with its loops, `JsonDiffCorrect` and `JsonDiffLocality` the theorems about it,
`JsonMerge` the merge patch of RFC 7396 and the recursive update, `JsonTeardown` the destructor with its explicit stack.
`JsonDocument` is a class whose methods change one document in place and are proved against these functions.

**The server** (`DbTask.dfy`, `Chat*.dfy`). `DbTask` has the tables, the queue of pending writes and the thread that applies
them. `ChatState` is the server as a state machine; one event is one handler call, one Redis callback, one round of the
database thread or the expiry of a Redis key. `ChatService` is the service as a class that updates its map, Redis, queue and
database in place; each handler is proved to be one step of the state machine. `ChatPresence` relates the live map to the
user table with the pending writes applied; `ChatLedger` accounts for every message; `ChatRegistry` follows friends, groups
and members; `ChatConduct` says what each handler does to users, connections and packets; `ChatProtocol` holds the
answers against what the client takes for an acknowledgement. `ChatRuns` starts the service and proves that every call of
it stays in a run of the state machine.

**The client** (`Retransmit.dfy`, `RetransmitRuns.dfy`). `Retransmit.Client` holds the three parallel maps and the scan that
erases while it walks. Ghost fields number the registrations and record the copies that were sent. `RetransmitRuns` adds a
channel that loses and delays but does not duplicate, proves the properties of all runs, and proves that each call of the
client is such a run.

**The wire** (`Cbc.dfy`, `Frame.dfy`). The block cipher is an arbitrary permutation with its inverse; chaining follows
section 6.2 of NIST SP 800-38A and padding section 6.3 of RFC 5652. `Frame` has the little-endian header and both readers.

## Where the code differs from what one expects

Each of these is a lemma. Where an expected property fails, a lemma says exactly when it holds; the last item is a
run that shows what an acknowledgement does not mean.

- `diff` compares with `operator==`, which casts unsigned integers to signed ones. The documents -1 and 2^64 - 1 have an
  empty difference (`DiffMissesWrapAround`). Applying a difference always gives a document equal to the target under
  `==`, and the target itself exactly when no common location holds integers of different kinds that compare equal.
- `operator<` is not transitive once an unsigned integer needs 64 bits (`TransitiveExactlyWhenSmall`). Exactly one of
  a < b, a == b, b < a holds all the same.
- Adding below a primitive value trips an assertion, although the comment at thirdparty/json.hpp:4790 rules that out
  (`AddAbortsExactlyBelowPrimitives`). Removing below a primitive or null value silently does nothing
  (`RemoveSucceedsExactly`).
- Removing does not always undo adding (`RemoveUndoesAdd`): not after "-", a null parent or an overwritten member.
- A move whose target cannot take the value has already removed it (`FailureKeepsTheDocument`), and a move inside an
  array can shift another value onto its source (`MoveShiftsIntoSource`).
- A missing user row is answered with the id -1 and an empty password, so a login with exactly these is admitted
  (`AdmittedLogin`, `RefusedLogin`).
- Closing a connection logs out one of the users logged in on it (`CloseFreesConnection`).
- A private chat that is published is not acknowledged, so that its sender retransmits it until it gives up
  (`PublishedIsNotAnswered`).
- A second login that comes before the database thread has run is accepted, and the map keeps the first connection
  (`SecondLoginOvertakesQueue`). An accepted login is the only one exactly when the last pending state task of the user
  does not say online (`NoDuplicateLogin`).
- A chat that comes between a logout and the database thread is published to a channel nobody reads
  (`LogoutRaceLosesChat`). For a registered addressee that happens exactly when the row says online while the last
  pending state task says offline (`GoneExactly`), and a run loses nothing exactly when it never happens
  (`LosesNothingExactly`).
- A private chat to an id without a row is filed under the id -1 (`UnknownAddresseeBecomesMinusOne`).
- The creator of a group becomes a member of the group -1 and gets no message of the new group without asking to join
  (`CreatorIsNoRecipient`).
- A resend that the socket accepts only in part counts as a success. The copies on the wire are the registered frame
  exactly when no `send` accepts only a part (`CopiesAreWholeExactly`).
- The server reader closes the connection on an encrypted empty text (`ServerRecovers`); the client reader recovers
  exactly the texts of at most 4063 bytes, since one `recv` must bring the whole frame (`ClientRecovers`).
- A chat from another user that carries the id of a pending message removes it, whether or not the server handled it
  (`RemovedWithoutHandling`).

## Assumptions

One server process; every handler, Redis callback and database round is one atomic step, and so is every call of the
client, which takes no lock. Login reads and removes the offline messages in one step. Commands to MySQL and Redis
succeed, except that the database may refuse a new user. Clocks, random IVs, generated keys and the results of `send`
are parameters. The order in which a hash map is walked is arbitrary. The order of the kinds of JSON value and JSON
pointers are declared in headers that are not in the repository; the model takes the library's documented order and
RFC 6901. The kind order only has to be strict, with both integer kinds sharing a rank.

## Model

| member | source | states |
|---|---|---|
| JsonOrder.Trichotomy | thirdparty/json.hpp:3580-3649 | exactly one of a < b, a == b, b < a holds, for all values, nested arrays and objects included |
| JsonOrder.DerivedOperators | thirdparty/json.hpp:3875-3944 | the negations that define <=, > and >= are "less or equal", "b < a" and "b < a or equal" |
| JsonOrder.StrLessExactly | thirdparty/json.hpp:3597-3598 | strings compare lexicographically: a is less if and only if it ends where b goes on or has the smaller character at the first difference |
| JsonOrder.ItemsLessExactly | thirdparty/json.hpp:3588-3589 | arrays compare lexicographically, by the first elements that are not equal |
| JsonOrder.MembersLessExactly | thirdparty/json.hpp:3591-3592 | objects compare lexicographically over their members in key order, first by key, then by value |
| JsonOrder.ScalarsAscend | thirdparty/json.hpp:3594-3607 | null is below false below true below the numbers below the strings; numbers ascend |
| JsonOrder.EqReflexive | thirdparty/json.hpp:3786-3798 | every value equals itself |
| JsonOrder.EqSymmetric | thirdparty/json.hpp:3786-3798 | equality is symmetric |
| JsonOrder.EqTransitive | thirdparty/json.hpp:3786-3798 | equality is transitive, across both integer kinds |
| JsonOrder.Transitivity | thirdparty/json.hpp:3580-3649 | < and == compose transitively on values whose unsigned integers are below 2^63 |
| JsonOrder.CapCycle | thirdparty/json.hpp:3635-3642 | every value with a larger unsigned integer lies on a cycle of < of length three |
| JsonOrder.TransitiveExactlyWhenSmall | thirdparty/json.hpp:3580-3649 | all chains from a through small values are transitive if and only if a has no unsigned integer of 64 bits |
| JsonPointer.UnescapeAfterEscape | thirdparty/json.hpp:5054 | unescaping an escaped key gives the key back, and an escaped key holds no slash |
| JsonPointer.EscapeAfterUnescape | thirdparty/json.hpp:5054 | escaping is onto the well-formed tokens: the other direction of the round trip |
| JsonPointer.EscapeCharByChar | thirdparty/json.hpp:5054 | a tilde is escaped as "~0", a slash as "~1", every other character as itself, and texts character by character |
| JsonPointer.ParseAfterPrint | thirdparty/json.hpp:4879 | parsing a printed pointer gives its tokens |
| JsonPointer.PrintAfterParse | thirdparty/json.hpp:4879 | printing the tokens of a parsed pointer gives its text |
| JsonPointer.ParseChild | thirdparty/json.hpp:5054 | appending a slash and an escaped key to a path adds exactly that key to the location |
| JsonPointer.IndexOfToString | thirdparty/json.hpp:5011 | the decimal text of an index is read back as that index |
| JsonPointer.DecimalDigits | thirdparty/json.hpp:5011 | an index is written in decimal digits, the last digit last |
| JsonPointer.IndexIsInjective | thirdparty/json.hpp:4777 | no two tokens name the same array element |
| JsonPointer.PutElsewhere | thirdparty/json.hpp:4898 | assigning at a location leaves all locations apart from it unchanged |
| JsonPatch.AddUndoesRemove | thirdparty/json.hpp:4736-4830 | removing any existing location below the root and adding the value back restores the document |
| JsonPatchLaws.AddPuts | thirdparty/json.hpp:4736-4801 | after a successful add the value is at the location, or with "-" at the new last index; at the location itself if and only if it is not "-" under an array |
| JsonPatchLaws.AddToObject | thirdparty/json.hpp:4759-4765 | adding to an object or null: everything at and below the location is that of the value, and all locations apart from it are unchanged |
| JsonPatchLaws.AddToArray | thirdparty/json.hpp:4767-4787 | adding to an array: elements before the slot stay, the others move up by one, and nothing outside the array changes |
| JsonPatchLaws.RemoveFromObject | thirdparty/json.hpp:4812-4824 | removing a member: nothing is left at or below the location, and all locations apart from it are unchanged |
| JsonPatchLaws.RemoveFromArray | thirdparty/json.hpp:4825-4829 | removing an element: those behind it move down by one, and nothing outside the array changes |
| JsonPatchLaws.ReplacePuts | thirdparty/json.hpp:4895-4900 | replacing: the value is at the location, and all locations apart from it are unchanged |
| JsonPatchLaws.MovePuts | thirdparty/json.hpp:4902-4917 | a successful move puts the old value of the source at the target, or with "-" at the new last index, and changes no location out of reach of the removal and the addition |
| JsonPatchLaws.MoveLeavesNothing | thirdparty/json.hpp:4902-4917 | moving a member out of an object leaves nothing at its location, if the addition cannot reach that |
| JsonPatchLaws.MoveShiftsIntoSource | thirdparty/json.hpp:4902-4917 | a document and a move where the addition shifts another value onto the source |
| JsonPatchLaws.MoveBelowItselfFails | thirdparty/json.hpp:4902-4917 | a member of an object cannot be moved below itself |
| JsonPatchLaws.ApartFromParentIsClear | thirdparty/json.hpp:4736-4830 | locations apart from the parent are out of reach of both |
| JsonPatchLaws.CopyPuts | thirdparty/json.hpp:4919-4932 | a successful copy puts the value of the source at the target, keeps the source, and changes no location out of reach |
| JsonPatchLaws.TestFindsWhatWasAdded | thirdparty/json.hpp:4934-4956 | a test for an added value passes |
| JsonPatchLaws.TestsAgree | thirdparty/json.hpp:4934-4956 | a location passes the tests for two values only if they are equal, and equal values get the same verdict |
| JsonPatchLaws.FailureKeepsTheDocument | thirdparty/json.hpp:4842-4965 | an operation that fails leaves the document as it was, except for a move that has taken its value out and loses it |
| JsonPatchLaws.DecodeAfterEncode | thirdparty/json.hpp:4876-4963 | every operation written as section 4 of RFC 6902 says is read as that operation |
| JsonPatchLaws.InterpretedAs | thirdparty/json.hpp:4881-4963 | and performed as that operation |
| JsonPatch.MoveOntoItself | thirdparty/json.hpp:4902-4917 | moving a location onto itself is the identity |
| JsonPatch.RemoveSucceedsExactly | thirdparty/json.hpp:4804-4830 | removing succeeds if and only if the location exists or its parent is a primitive or null value, and in the second case changes nothing |
| JsonPatch.RemoveUndoesAdd | thirdparty/json.hpp:4736-4830 | removing undoes a successful add if and only if it made a new member or inserted at an index |
| JsonPatch.AddAbortsExactlyBelowPrimitives | thirdparty/json.hpp:4753-4800 | the assertion in the add operation fails if and only if the parent exists and is a primitive value |
| JsonPatch.AddBelowPrimitiveAborts | thirdparty/json.hpp:4790-4800 | a document and a location for which it fails |
| JsonPatch.RunAppend | thirdparty/json.hpp:4839-4964 | running two patches one after the other is running their concatenation, stopping at the first failure |
| JsonDocument.Document.PatchInPlace | thirdparty/json.hpp:4842-4965 | the loop leaves the document as the run of all operations does, also when it stops at a failing one |
| JsonDocument.Document.Patch | thirdparty/json.hpp:4970-4975 | the same outcome on a copy; the document itself is unchanged |
| JsonDiff.Diff | thirdparty/json.hpp:4980-5110 | the loops emit the specified patch, for values of any kinds |
| JsonDiff.DiffArrays | thirdparty/json.hpp:5004-5046 | common elements in order, then removals from the highest index down, then additions at the end |
| JsonDiff.InsertRemovals | thirdparty/json.hpp:5019-5032 | inserting at a fixed position reverses the removals |
| JsonDiff.DiffObjects | thirdparty/json.hpp:5048-5089 | the source's members in key order, then the members only the target has |
| JsonDiffCorrect.PatchOfDiff | thirdparty/json.hpp:4980-5110 | for all documents, patching s with diff(s, t) never throws and gives a document equal to t; it is t itself if and only if no common location clashes in integer kind |
| JsonDiffCorrect.DiffApplies | thirdparty/json.hpp:4980-5110 | on any document whose value at p is s, the patch made for p succeeds and replaces that value only |
| JsonDiffCorrect.DiffIsLocal | thirdparty/json.hpp:5004-5089 | its value at p then equals t, and every location apart from p is unchanged |
| JsonDiffCorrect.MergedIsTarget | thirdparty/json.hpp:4985-4988 | the patched value is the target if and only if no common location clashes in integer kind |
| JsonDiffCorrect.ParsedSmallDoNotClash | thirdparty/json.hpp:4980-5110 | documents from the parser without unsigned integers of 64 bits never clash |
| JsonDiffCorrect.DiffMissesWrapAround | thirdparty/json.hpp:4985-4988 | -1 and 2^64 - 1 have an empty difference |
| JsonDiffLocality.DiffTargetsBelow | thirdparty/json.hpp:5004-5089 | every operation in the patch made for p adds, removes or replaces at p or below it |
| JsonDocument.Document.MergePatch | thirdparty/json.hpp:5122-5146 | the in-place loop is MergePatch of RFC 7396, in whatever order the members are visited |
| JsonMerge.MergeIsIdempotent | thirdparty/json.hpp:5122-5146 | merging the same patch again changes nothing |
| JsonMerge.MergeIntoNonObject | thirdparty/json.hpp:5126-5129 | merging into anything but an object gives the patch with its null members stripped through objects |
| JsonMerge.StrippedIsSame | thirdparty/json.hpp:5132-5135 | stripping changes nothing if and only if no null member is reachable through objects |
| JsonDocument.Document.Update | thirdparty/json.hpp:3408-3458 | the in-place loop with its recursive calls has the specified value or the specified type error |
| JsonMerge.UpdateMeaning | thirdparty/json.hpp:3415-3458 | the recursive update completes if and only if objects meet only null values and objects; its value does not depend on the order of keys |
| JsonMerge.ShallowUpdate | thirdparty/json.hpp:3408-3458 | without the flag, update is the union of the members in which those of the argument win, or a type error |
| JsonMerge.TypeErrorLeaves | thirdparty/json.hpp:3440-3457 | a type error leaves the members before the failing key updated, that member as far as its own update came, and the rest unchanged |
| JsonMerge.UpdateIsMergeExactlyWithoutNulls | thirdparty/json.hpp:3415-3458 | whenever the recursive update completes, it equals the merge patch if and only if the update has no null member reachable through objects |
| JsonTeardown.Destroy | thirdparty/json.hpp:554-613 | every nested value comes off the stack exactly once, the loop ends, each nested destructor call finds a value without children, and destructor calls nest to depth two at most, however deep the tree |
| DbTask.QueueRefinement | src/server/redis/dbtask.cpp:9-23 | over any interleaving, applied tasks followed by queued ones are the pushed ones, and the tables are the fold over the applied ones |
| DbTask.LastStateWins | src/server/redis/dbtask.cpp:62-70 | once drained, a user has the state of the last state task pushed for them |
| DbTask.DbTaskQueue.Push | src/server/redis/dbtask.cpp:9-14 | the task is appended |
| DbTask.DbTaskQueue.Pop | src/server/redis/dbtask.cpp:16-23 | the oldest task is taken off |
| DbTask.DbTaskQueue.DbWork | src/server/redis/dbtask.cpp:27-78 | the rounds of the thread fold the whole queue into the tables |
| ChatService.Service.Login | src/server/chatservice.cpp:65-181 | is the login step: both refusals, the accepted login with its offline messages and friends, the acknowledgement |
| ChatService.Service.Register | src/server/chatservice.cpp:182-216 | is the registration step, including the echo when the database refuses |
| ChatService.Service.ClientCloseException | src/server/chatservice.cpp:219-248 | the search finds an entry of the connection if and only if there is one, and is the close step |
| ChatService.Service.Logout | src/server/chatservice.cpp:250-277 | is the logout step |
| ChatService.Service.OneChat | src/server/chatservice.cpp:279-322 | is the private chat step; the published branches send no acknowledgement |
| ChatService.Service.GroupChat | src/server/chatservice.cpp:421-459 | the loop is the group chat step |
| ChatService.Service.AddFriend | src/server/chatservice.cpp:325-344 | with the pending writes applied, the friend table has grown by both directions and no other table has changed |
| ChatService.Service.CreateGroup | src/server/chatservice.cpp:346-383 | with the pending writes applied, the group is there; at once, and for the group id -1, the creator is a member |
| ChatService.Service.AddGroup | src/server/chatservice.cpp:385-419 | with the pending writes applied, the user is a member and no other table has changed |
| ChatRegistry.FriendsAndGroupsOfRun | src/server/redis/dbtask.cpp:41-58 | over any run, with the pending writes applied, the friend and group tables are what the run asked for, in order, after what they were |
| ChatRegistry.MembersOfRun | src/server/chatservice.cpp:358-361 | over any run, with multiplicity, the same for the member table, whose creator rows overtake the queue |
| ChatRegistry.FriendsAreMutual | src/server/model/friendmodel.cpp:5-51 | in every state of a run two registered users are in each other's friend lists equally often |
| ChatRegistry.MemberExactlyByJoining | src/server/chatservice.cpp:346-419 | with the pending writes applied, a user is a member of a group with a proper id if and only if they were before the run or asked to join in it |
| ChatRegistry.CreatorIsNoRecipient | src/server/chatservice.cpp:353-361 | in no state of a run is a creator who has not asked to join among the recipients of the group |
| ChatRegistry.CreatorRowsStay | src/server/chatservice.cpp:353-361 | no run adds a creator row for a group with a proper id |
| ChatService.Service.HandleRedisSubscribeMessage | src/server/chatservice.cpp:462-481 | is the delivery step: to the connection, or directly into the offline table |
| ChatService.Service.DbRound | src/server/redis/dbtask.cpp:36-71 | is one round of the database thread |
| ChatRuns.StartServer | src/server/chatservice.cpp:19-41 | a new service is in an initial state of the state machine |
| ChatRuns.Perform | src/server/chatservice.cpp:65-481 | any call, callback or round takes the service from a state of a run to a state of a longer run, so that the presence invariant and the conservation of stored messages hold, and nothing is lost if and only if nobody written to was gone |
| ChatService.NoMessagesNoRows | src/server/chatservice.cpp:115-121 | skipping the removal when the query is empty loses nothing |
| ChatConduct.RefusedLogin | src/server/chatservice.cpp:72-86 | a login is refused unless the row has the password and is offline: nothing changes, one refusal is sent, with errno 2 if and only if the password is right, and the acknowledgement |
| ChatConduct.AdmittedLogin | src/server/chatservice.cpp:88-167 | an admitted login enters the map, subscribes, sets the key and pushes the state, for that user only, and is answered with the name, the messages and the friends of the row |
| ChatConduct.LoginHandsOverAll | src/server/chatservice.cpp:115-121 | it leaves no message of the user in the table and touches no other; the answer has every one of them, as often as it was stored |
| ChatConduct.MessagesInOrder | src/server/model/offlinemessagemodel.cpp:39-63 | in the order of the table |
| ChatConduct.FriendListIsTrue | src/server/model/friendmodel.cpp:22-51 | every listed friend is in the friend table, with the name and state of the user's row |
| ChatConduct.CloseExactly | src/server/chatservice.cpp:219-248 | after a close that finds a user, they are in none of map, subscriptions and keys and offline by their last state task, and nobody else changes; without an entry map and queue are unchanged |
| ChatConduct.CloseFreesConnection | src/server/chatservice.cpp:224-233 | no entry of the connection is left if and only if at most one user was logged in on it |
| ChatConduct.ClosedGoesOffline | src/server/chatservice.cpp:219-248 | whatever happens next, a registered user whose connection closed and who does not log in again is offline in the table once the writes are applied |
| ChatConduct.LogoutExactly | src/server/chatservice.cpp:250-277 | the same for a logout, with one acknowledgement |
| ChatConduct.RegisteredCanLogin | src/server/chatservice.cpp:182-216 | after a registration exactly the given password is admitted for the new id, the row has the given name, and no other row changes |
| ChatConduct.ComesAndGoes | src/server/chatservice.cpp:65-481 | an entry, a subscription and a key are there after an event if and only if it lets the user in, or they were there and it does not let them out; delivery renews the key |
| ChatConduct.StepPackets | src/server/chatservice.cpp:65-481 | packets are only added; every chat goes to the connection its addressee has at that moment, every other packet to the sender of the request |
| ChatConduct.ChatToPresentUser | src/server/chatservice.cpp:286-295 | a private chat to a connected user is one packet on that connection and one acknowledgement |
| ChatConduct.AnswerTo | src/server/chatservice.cpp:65-459 | which answers come before the acknowledgement |
| ChatConduct.StepAcks | src/server/chatservice.cpp:65-459 | every request is acknowledged exactly once, to its sender, except a private chat that is published |
| ChatConduct.RunAcks | src/server/chatservice.cpp:568-576 | over any run the acknowledgements are those, in order |
| ChatConduct.ConnectedWasAdmitted | src/server/chatservice.cpp:65-105 | in every state of a run, whoever is in the map was admitted on that connection |
| ChatConduct.PacketsReachTheRight | src/server/chatservice.cpp:65-481 | over runs, every chat goes to a connection on which its addressee was admitted, every login answer to one on which that user was |
| ChatProtocol.AcknowledgingKinds | src/client/main.cpp:382-387 | of all that the server sends, the client takes everything for an acknowledgement but the echo of a refused registration and the two group answers |
| ChatProtocol.AnsweredIsNotResent | src/server/chatservice.cpp:568-576 | a request that is not a published chat is answered by a packet that ends its retransmission |
| ChatProtocol.PublishedIsNotAnswered | src/server/chatservice.cpp:298-312 | a published chat is answered by nothing |
| ChatPresence.StepKeeps | src/server/chatservice.cpp:65-481 | every event keeps the presence invariant |
| ChatPresence.PresenceRefinement | src/server/chatservice.cpp:65-277 | in every reachable state a registered user is online in the table with the pending writes applied if and only if connected, if and only if subscribed, and a Redis key implies it |
| ChatPresence.RowIsRightOrPending | src/server/redis/dbtask.cpp:62-70 | a table row agrees with the map unless a state task of the user is pending |
| ChatPresence.DrainedTableIsRight | src/server/redis/dbtask.cpp:34-77 | with an empty queue the table itself agrees with the map |
| ChatPresence.LastTaskDecides | src/server/redis/dbtask.cpp:62-70 | a registered user is connected if and only if their last pending state task says online, or there is none and the row does |
| ChatPresence.NoDuplicateLogin | src/server/chatservice.cpp:72-105 | an accepted login meets an older connection of the user if and only if the last pending state task says online; the map then keeps that one, and otherwise maps to the new one; without a pending state task there is none |
| ChatPresence.SecondLoginOvertakesQueue | src/server/chatservice.cpp:72-105 | from any initial state, two logins before a database round are both accepted |
| ChatPresence.ChatToAbsentUser | src/server/chatservice.cpp:298-321 | a chat to a registered user without a connection is stored if and only if the row says offline, and otherwise published to nobody; without a pending state task it is stored |
| ChatLedger.StepAccounts | src/server/chatservice.cpp:65-481 | in every event the queue, the offline table and the login responses to the addressee together grow by exactly the messages the event stores; sent and published ones, and the lost ones, by exactly what it sends and loses |
| ChatLedger.OfflineConservation | src/server/chatservice.cpp:115-121 | over any run, with multiplicity, a message is in the queue, the table and the login responses together exactly as often as it was stored |
| ChatLedger.Conservation | src/server/chatservice.cpp:279-481 | over any run, with multiplicity, what was accepted is stored, on the way or lost |
| ChatLedger.RowsSplit | src/server/model/offlinemessagemodel.cpp:23-63 | the login response holds exactly the messages that the login removes from the table |
| ChatLedger.LosesNothingExactly | src/server/chatservice.cpp:298-321 | a run loses nothing if and only if no chat of it meets an addressee without connection and subscription whom the row, or for a private chat the key, calls online |
| ChatLedger.GoneExactly | src/server/chatservice.cpp:298-312 | a registered user is in that condition if and only if the row says online and the last pending state task says offline |
| ChatLedger.PrivateChatLostExactly | src/server/chatservice.cpp:298-312 | a private chat to a registered user is lost exactly then |
| ChatLedger.NothingLost | src/server/chatservice.cpp:298-321 | every accepted message is stored or on the way, for all messages, if and only if no chat met an addressee who was gone |
| ChatLedger.LogoutRaceLosesChat | src/server/chatservice.cpp:307-312 | a run that loses one |
| ChatLedger.UnknownAddresseeBecomesMinusOne | src/server/chatservice.cpp:307-320 | a chat to an id without a row is queued for the id -1 |
| ChatLedger.RecipientsAreRows | src/server/model/groupmodel.cpp:92-114 | the recipients are the rows of the group, with multiplicity, without the sender's |
| ChatLedger.GroupFanOut | src/server/chatservice.cpp:432-457 | the loop's whole effect: packets to the connected, messages on the channels of those online with a subscriber and lost without one, tasks for the rest, each in order |
| ChatLedger.GroupChatDelivers | src/server/chatservice.cpp:421-459 | the whole new state; every row of the group gets exactly one of the four, the sender none, followed by one acknowledgement |
| Retransmit.Client.EncryptedMessage | src/client/main.cpp:710-741 | the message becomes pending with a fresh registration before it is sent, and stays so when sending fails |
| Retransmit.SendAll | src/client/main.cpp:728-738 | the wire gets the beginning of the frame that the calls of `send` accepted together, calls that accept nothing included; all of it exactly on success; it fails at the first -1 |
| Retransmit.Client.CheckTimeOutAndResend | src/client/main.cpp:743-777 | the erasing loop equals the simultaneous per-entry scan, visits each entry once, and puts on the wire what `send` accepts of each resent frame |
| Retransmit.Client.OnReceiveAck | src/client/main.cpp:779-788 | exactly the acknowledged id leaves all three maps |
| Retransmit.Client.OnMessage | src/client/main.cpp:382-387 | which message types acknowledge, chats included |
| RetransmitRuns.Perform | src/client/main.cpp:710-788 | every call of the client is a run of at most one event, so the theorems on runs hold of it |
| RetransmitRuns.RunKeeps | src/client/main.cpp:743-788 | over all runs: retries between 0 and 3, copies sent between the retries and one more, every copy a beginning of the registered frame, timing of each entry |
| RetransmitRuns.HandledAtMostFourTimes | src/client/main.cpp:724-777 | the server handles each registration at most 1 + RETRY_MAX = 4 times, and each copy is a beginning of the registered frame |
| RetransmitRuns.CopiesAreWholeExactly | src/client/main.cpp:763-769 | every copy is the registered frame, byte for byte, if and only if no call of `send` accepted only a part |
| RetransmitRuns.FourTimesIsReached | src/client/main.cpp:743-777 | for any message some run reaches four |
| RetransmitRuns.HandledIsRead | src/server/chatserver.cpp:46-71 | without partial sends every copy handled is read as the text that was encrypted, with the same message id |
| RetransmitRuns.NoCopyAfterRemoval | src/client/main.cpp:743-788 | a registration that is no longer pending never is again and sends no further copy |
| RetransmitRuns.NoCopyAfterAck | src/client/main.cpp:779-788 | no copy is sent after the acknowledgement unless the id is registered again |
| RetransmitRuns.RemovedWithoutHandling | src/client/main.cpp:382-387 | an acknowledging message can remove an entry the server never saw |
| RetransmitRuns.GiveUpIsLate | src/client/main.cpp:753-762 | giving up happens at least 8004 ms after the registration and after three or four copies |
| RetransmitRuns.ScansExactly | src/client/main.cpp:743-777 | after k spaced scans with successful sends exactly the entries with at most 3 - k retries remain, each with k more |
| RetransmitRuns.FourScansDrain | src/client/main.cpp:743-777 | four spaced scans leave nothing pending, whatever is acknowledged, arrives or gets lost in between |
| Cbc.ChainAppend | src/server/encrypt.cpp:68-81 | chaining a text in two calls, the second continuing from the last block of the first, is chaining it in one |
| Cbc.BitXorBits | src/server/encrypt.cpp:62-81 | a bit of an exclusive or is set if and only if the bits of the operands differ |
| Cbc.BitsDecide | src/server/encrypt.cpp:62-81 | and the bits determine the result |
| Cbc.ByteXorLaws | src/server/encrypt.cpp:62-81 | on bytes: the bits, zero is neutral, every byte is its own inverse, and the operands commute |
| Cbc.ChainBlock | src/server/encrypt.cpp:68-81 | each cipher block is the encryption of the text block xored with the cipher block before it, the first with the IV |
| Cbc.UnchainBlock | src/server/encrypt.cpp:133-147 | each text block is the decryption of its cipher block xored with the cipher block before it |
| Cbc.PadExactly | src/server/encrypt.cpp:74-81 | the padding is one to sixteen bytes, each of which is their number, up to whole blocks, and nothing else is |
| Cbc.UnpadLast | src/server/encrypt.cpp:139-147 | unpadding a text is unpadding its last block |
| Cbc.UnchainAfterChain | src/server/encrypt.cpp:133-147 | unchaining a chained text gives it back, by induction over blocks |
| Cbc.ChainAfterUnchain | src/server/encrypt.cpp:133-147 | and the other way round |
| Cbc.UnpadAfterPad | src/server/encrypt.cpp:71-77 | the padding is removed exactly |
| Cbc.PadAfterUnpad | src/server/encrypt.cpp:143-147 | whatever unpads is the padding of the result |
| Cbc.Aes256CbcEncrypt | src/server/encrypt.cpp:38-101 | the update and final calls fill the buffer of n + 16 bytes with the padded text chained by exclusive or (`ChainBlock`); the output has 16 + 16 * (n / 16 + 1) bytes |
| Cbc.Aes256CbcDecrypt | src/server/encrypt.cpp:104-161 | the update call, which holds back the last block, and the final call compute the decryption or fail as it does |
| Cbc.DecryptedExactlyEncrypted | src/server/encrypt.cpp:104-161 | a cipher text decrypts to p if and only if it is an encryption of p under its own IV |
| Cbc.RoundTrip | src/server/encrypt.cpp:38-161 | decrypting an encrypted text gives the text back, for every key and IV |
| Frame.WordValueAfterWord | include/public.hpp:25-31 | a little-endian word is read back |
| Frame.WordAfterWordValue | include/public.hpp:25-31 | any four bytes are the word that they are read as |
| Frame.LittleEndian | include/public.hpp:25-31 | the lowest byte of a word comes first |
| Frame.HeaderLayout | include/public.hpp:25-31 | the four fields follow each other in the order of their declaration |
| Frame.ParseAfterHeaderBytes | include/public.hpp:25-31 | all four header fields are read back from the first 16 bytes |
| Frame.FrameShape | src/server/chatservice.cpp:551-564 | length, header and payload of a frame |
| Frame.ServerRecovers | src/server/chatserver.cpp:46-71 | the server reads every text back from its frame, except that it closes on the empty one |
| Frame.ServerReadsOnlyTheFlag | src/server/chatserver.cpp:46-99 | what the server makes of a frame does not depend on length, type and id in the header; an unencrypted payload is read as it is |
| Frame.ClientReadsPlain | src/client/main.cpp:336-368 | the client reads an unencrypted text back if and only if the frame fits one `recv` and the length field is right or below the header size |
| Frame.ClientRecovers | src/client/main.cpp:336-368 | the client reads a text back if and only if it has at most 4063 bytes |

## Left out

- Sockets, event loops, threads and condition variables: they appear only as atomic steps, so interleavings inside a handler are not modelled.
- OpenSSL, hiredis and MySQL: abstracted to a keyed permutation, sets of keys and subscriptions, and tables; SQL texts and connection failures are not modelled.
- JSON text parsing and printing, binary formats, flatten and unflatten: a chat is its text, and a request is its decoded fields.
- Floating-point, binary and discarded JSON values: a NaN is not equal to itself.
- JsonDocument.Document.MergePatch: nested calls work on a copy of the member that is then stored back, so aliasing of references into one document is not modelled; the same holds for the nested calls of `update`.
- JsonDocument.Document.PatchInPlace: each operation computes the changed document and assigns it; references into the document held during an operation are not modelled.
- ChatLedger.NothingLost: a private chat to an unknown id counts as accepted for the id -1, where it is filed.
- JsonDiff.Diff: the patch is built as a sequence of operations; the array that wraps it is added where it is applied.
- Messages of exceptions, and which exception is thrown: an operation is done, threw or tripped an assertion.
- JsonTeardown.Destroy: the empty shells that moving leaves in a container and on the stack, and allocation, are not modelled.
- ChatService.Service.Login: the list of groups in the response is not modelled, since it needs the generated group ids and changes no state.
- Retransmit.Client.EncryptedMessage: a call that is still sending is left as it stands when the given results of `send` are used up.
- RetransmitRuns.HandledAtMostFourTimes: each attempt to send is one copy on the channel; how the server splits a stream in which a cut copy is followed by others is not modelled.
- Several frames in one read of the server: the code takes a read for one frame, so no reassembly property holds.
- Several server processes: each has its own queue, and presence across servers is not an invariant of the code.
- ChatProtocol.AnsweredIsNotResent: the server passes message ids through a signed integer; ids are compared as the client sent them.
- `generateUniqueMsgId`: it keeps 20 bits of the time in seconds, so ids repeat; the model numbers registrations instead.
- The local chat history, menus, command parsing, the unused acknowledgement helpers and the reset of all states at a server's end.
