# Verification model of the mesh chat server and its clients

The chat system has a management server, any number of clients, and a small TLV protocol between them over TCP.
The server keeps users, groups with member lists, a queue of sixteen multicast addresses and a table of 64
connections; each client keeps a list of the groups it is in, with their addresses. This project models all of
that, from the linked list up to the whole system, and proves that it fits together.

There are three layers.

**Data structures and messages, as they change in place.** `Lists` (sentinel list and iterators), `Queues`
(circular buffer), `Vectors` (growth and shrinking with hysteresis), `Primes`, `Chains` and `HashMaps` (lazily
created lists in a prime number of buckets), `Iteration` (what a visit with early stop means), `Strings`,
`Protocol`, `Framing`, `Buffers` (`TLVMessage` records filled in place) and `Network` (sockets that read and write
as much or as little as they like). `Assoc` is the mathematical view of the hash map.

**The state machines.** `ServerSpec` says what every request, hang-up and new connection does to the server's state,
`ClientSpec` the same for the client, `System` composes the server with any number of clients that may also crash.
`ChatMachine` says once more what the server is for, on two maps and a queue, with codes and limits in numbers;
`Refinement` proves every reachable step of `ServerSpec` to be one of that machine. `Requests` says in the same way which
requests clients send and what they make of the replies, `WireFormats` where every byte of a message stands,
`AddressPool` which addresses there are; with `Exchanges` and `Journeys` follow what each command gets done.
`ServerInvariants`, `Withdrawal`, `ServerSafety`, `ServerReplies`, `ServerRuns`, `Conversations`, `Rounds`, `Recycling`,
`LoginHistory` and `Registrations` prove what holds in every reachable state and over every run; `Counterexamples`,
`FullTable` and `StaleLists` build the reachable states in which the conditions of these theorems fail.

**The programs.** `UserTables`, `GroupTables`, `ServerContexts`, `Handlers`, `ServerLoop` and `ServerRounds` (with
`Answers`, which says what it means to have answered) are the server on real hash maps, lists, the queue and the slot
array: every handler is proved to do to these structures what `ServerSpec` says and to send exactly one reply, and
every round of the main loop to serve exactly the ready slots, in order, as a run of `ServerSpec` whose replies go out
on the sockets byte for byte.
`ClientContexts` does the same for the client's fixed array of sessions and `ClientSpec`, for single commands and for
whole sessions of menu choices (`ClientSessions`).

Hypotheses, which the code relies on and does not check:

- The allocation in `close_empty_group` (src/server_mng.c:98) and the list node in `add_member`
  (src/server_mng.c:217) are available. All allocations on the register and create paths may fail.
- fds are not negative, and `accept` returns an fd that is not open (`ServerSpec.Enabled`).
- The agreement of clients and server is proved of clients that talk to the server by request and reply and log in
  from the first screen only, which is what the client does. What does not need this is proved without it.

Where the repository's words and its code differ, the model follows the code: the repository's README.md promises no
allocation at run time, but handlers allocate; include/server.h:166 has a join create the group, but the code answers
that there is none.

## Model

| member | source | states |
|---|---|---|
| Refinement.RefinementTheorem | src/server_mng.c:124-364 | In every reachable state, whatever is received: users and groups as mathematical maps change as the machine's do, the reply is the machine's, byte for byte (success for every logout and exit; for the rest which of the codes 0 to 8, or which address, in which situation), and only an exit closes the connection |
| Refinement.RunTheorem | src/server_net.c:256-308 | From the start on, every run of the server is a path of the machine from no accounts, no groups and the preloaded addresses |
| Refinement.StreamTheorem | src/server_net.c:147-194 | Read off the stream of a connection that was not turned away, the k-th message is what the machine answers to the k-th request in the state it was made in |
| Refinement.AcceptTheorem | src/server_net.c:258-283 | Of the 64 slots a new connection gets the first free one; if none is, it is sent the error with code 8 and nothing changes |
| ChatMachine.RefusalsChangeNothing | src/server_mng.c:124-343 | A refused request changes nothing, except that a create that runs out of memory moves the next address to the end of the queue |
| ChatMachine.ReplyIsDetermined | src/server_mng.c:347-364 | The reply follows from accounts, groups and free addresses alone, and so does the new state, except for logouts and exits on a connection with more than one session and for the order of released addresses |
| Requests.AskTheorem | src/client_ui.c:176-384 | A client refuses a command by itself if and only if a string is empty or too long (32 and 64 bytes with the terminator), it lists sixteen groups already, it joins a group it lists, or it leaves one it does not; otherwise it sends a message with the tag of the command from which the server reads exactly what was typed |
| Requests.ReceiveTheorem | src/client_ui.c:206-413 | Only a success logs a client in or takes a group off its list, the others keeping their order; only the address of a group puts one behind the others; a logout forgets everything |
| Requests.ScriptTheorem | src/client_ui.c:24-109 | In a session each menu choice puts out the request it stands for on the screen that is shown (1, 2, 3: tags 1, 2, 4; then 1, 2, 3, 4: tags 7, 5, 6, 3) with what was typed, and takes the next message as its reply; choices that are not on the menu lead to nothing |
| Journeys.JoinJourney | src/client_ui.c:293-354 | In the composed system a join that is made, served and answered puts the group on the client's list with the address all members have, and the client among its members, if and only if fewer than sixteen groups are listed, this one is not, it is live, and it has fewer than 32 members; any other join changes nothing anywhere |
| Journeys.CreateJourney | src/client_ui.c:241-291 | A create puts a group of which the founder is the only member on the client's list, with the next free address, if and only if the name is well-formed and new, fewer than sixteen groups are live and memory suffices |
| Journeys.LeaveJourney | src/client_ui.c:356-413 | A leave of a listed group always takes it off the list and the client out of its members, and closes it after the last one; any other leave changes nothing anywhere |
| Journeys.LogoutJourney | src/client_mng.c:24-60 | After a logout the client is on the first screen with an empty list, in no group of the server, and nobody has a session on its fd |
| Journeys.RegisterJourney | src/client_ui.c:176-204 | A registration stores exactly the typed password for the typed name if and only if both are well-formed, the name is new and memory suffices |
| Journeys.LoginJourney | src/client_ui.c:206-239 | A login shows the second screen if and only if the typed password is the stored one and the name has no session open; otherwise it changes nothing |
| Journeys.RegistrationStores | src/server_mng.c:124-158 | Whenever a client's registration is served in the composed system, success and exactly this account stored go together |
| Journeys.AccountLasts | src/server_mng.c:160-188 | After any run of any clients since a registration, an idle client on any connection logs in as that user if and only if it types the registered password and no session of that user is open |
| AddressPool.PreloadedAre | src/server_net.c:92-107 | A fresh server has sixteen addresses; the i-th is 224.0.0.{i + 1} in decimal, read by a fold of its digits, on port 5000 |
| AddressPool.HandedOutInTurn | src/server_mng.c:245-250 | The n-th of the first sixteen creates that take an address gets 224.0.0.n on port 5000 |
| AddressPool.FirstAnswer | src/server_mng.c:222-281 | The first create on a fresh server is answered with the bytes of 224.0.0.1 and port 5000 |
| System.MirrorTheorem | src/client_ui.c:241-413 | In every reachable state of the server with any number of clients, crashes included, a client's list of groups has no name twice and fits into its array; it lists exactly the groups that have its fd as a member, with the server's addresses, if and only if no reply is on its way that is about to change it |
| System.MirrorEntries | src/client_ui.c:241-413 | Entry by entry: a listed name is a live group with this member and this address, and every such group is listed |
| System.SeparationTheorem | src/client_ui.c:276-288 | Two entries of any two clients' lists have the same multicast IP if and only if they are for the same group, unless the reply that will take one of them off its list is on its way |
| System.EntryTheorem | src/client_ui.c:383-409 | Whatever else is on its way, an entry of a client's list is a membership on the server if and only if no successful leave of that group and no logout is on its way back |
| StaleLists.SharedAddress | src/client_ui.c:383-409 | For such an entry separation fails: a reachable state in which a client that has not heard yet that it left its group shows the address on which another client has just founded its sixteenth group |
| System.FullListTheorem | src/client_ui.c:247-251 | The refusal of a create or join with a full list blocks nothing: the server would refuse any create then, and any join of a group that is not listed |
| System.SessionTheorem | src/client_mng.c:52-57 | A logged-in client's name is the only session on its fd and a client on the first screen has none, if and only if no reply is on its way that logs it in or out; every open session belongs to an open connection |
| System.LoginsAreDisciplined | src/client_ui.c:48-54 | When a login reaches the server in the composed system, no session is open on its fd |
| System.FreshFd | src/server_net.c:258-280 | A new connection starts on an fd that is in no group and tied to no user, even if the fd was used before |
| System.HappenKeeps | src/server_net.c:286-308 | Agreement of all clients with the server and the server's invariant are kept by every event of the composed system |
| Withdrawal.CleanupIsLeaves | src/server_mng.c:75-120 | Cleaning up after a client equals leaving its groups one at a time, in any order, and then ending its session: same groups, users and slots, and the same free addresses |
| Withdrawal.CleanupIsWithdrawal | src/server_mng.c:82-86 | Collecting names in a fixed array during the sweep and closing afterwards loses no emptied group, keeps the order and the addresses of the others, and appends the released addresses in iteration order |
| ServerSafety.CleanupKeeps | src/server_mng.c:111-120 | A cleanup keeps the invariant, changes nothing for any other fd, takes the fd out of all groups, and leaves no session on it if and only if there was at most one |
| ServerSafety.StepKeeps | src/server_net.c:258-308 | Every event of the server loop keeps the whole invariant: addresses conserved, groups live and counted, sessions marked, slots distinct, members connected and logged in |
| ServerSafety.DispatchKeeps | src/server_mng.c:347-364 | Every request keeps the invariant and changes memberships and sessions of the requesting fd only |
| ServerSafety.CreateKeeps | src/server_mng.c:222-281 | A create adds exactly the requester's membership of the new group with the address at the head of the pool, or no membership at all |
| ServerSafety.JoinKeeps | src/server_mng.c:283-310 | A join answered with a group's address has added exactly that membership |
| ServerSafety.LeaveGroupKeeps | src/server_mng.c:312-343 | A leave answered with success has removed exactly that membership, closing the group if it became empty |
| ServerSafety.LoginKeeps | src/server_mng.c:160-188 | A successful login adds exactly the named session to the fd and nothing anywhere else |
| ServerSafety.RegisterKeeps | src/server_mng.c:124-158 | Registering touches no session, no group and no address |
| ServerReplies.CreateAnsweredIff | src/server_mng.c:226-280 | A create succeeds if and only if its sender is logged in, the name is well-formed and new, fewer than sixteen groups are live, and memory suffices |
| ServerReplies.JoinAnsweredIff | src/server_mng.c:287-309 | A join succeeds if and only if its sender is logged in and the named group exists and has the sender already or fewer than 32 members |
| ServerReplies.LeaveAnsweredIff | src/server_mng.c:316-342 | A leave succeeds if and only if the sender is a member of the named group |
| ServerReplies.CreateRefusals | src/server_mng.c:226-274 | Each refusal of a create if and only if its reason holds: group-full means the name is taken (never that a new group is full), server-full means sixteen live groups or no memory |
| ServerReplies.JoinRefusals | src/server_mng.c:287-305 | Each refusal of a join if and only if its reason holds: group-full means 32 members, the sender not among them |
| ServerRuns.ReachableGroups | src/server_mng.c:94-108 | In every reachable state the free queue and the live groups share out the sixteen preloaded addresses, none lost and none twice, and every group is non-empty, counted rightly, free of duplicates and within 32 members |
| ServerRuns.ReachableSessions | src/server_mng.c:183-184 | In every reachable state a user is marked logged in if and only if it has an fd, slots in use are distinct, and every group member is connected and logged in |
| ServerRuns.HangUpEndsSessionsIff | src/server_mng.c:118-119 | The end of a connection leaves no session on its fd if and only if there was at most one |
| Recycling.QueuePosition | src/server_mng.c:245-250 | A free address moves up one place with each create that takes one, over any run |
| Recycling.FifoTheorem | src/server_mng.c:249-250 | An address with p others in front of it is handed out by the create after p takings, and by no earlier one |
| Recycling.RecyclingTheorem | src/server_mng.c:94-108 | From release to reuse: an address released by the last member's leave while k others are free is handed out by the create after k takings, and by no earlier one |
| Recycling.CleanupReleases | src/server_mng.c:82-86 | A cleanup puts the addresses of the groups its fd is alone in behind all free ones, in iteration order |
| Recycling.RecycledInOrder | src/server_mng.c:245-275 | Counted in successful creates: as long as none runs out of memory, the address is handed out by the success after p successes, and by no earlier one |
| Recycling.RecycledInOrderIff | src/server_mng.c:252-274 | The law in terms of successful creates holds of an address up to its turn if and only if its turn has not come or no create ran out of memory before it |
| Recycling.RecycledEarly | src/server_mng.c:252-257 | The failing input: a create without memory, sent again, succeeds as the first one and takes the second address of the queue |
| Counterexamples.OutOfOrder | src/server_mng.c:252-257 | Such a state is reachable: the first user's first create |
| ServerInvariants.PoolIsSound | src/server_net.c:92-107 | The preloaded addresses are pairwise distinct, valid in replies, and share the port |
| ServerInvariants.ConservedMeans | src/server_net.c:92-107 | Conservation as a multiset means: sizes add up to sixteen, the pool and the groups' addresses are disjoint and without duplicates |
| LoginHistory.LoginTheorem | src/server_mng.c:160-188 | After any run in which no connection logs out, exits or hangs up with two sessions open, a well-formed login succeeds if and only if its password is the one of the name's first successful registration and the name has no session open by the history; otherwise the error tells which failed |
| LoginHistory.LoginTheoremIff | src/server_mng.c:111-188 | Over any run, every login at every point of it would be answered as the history says if and only if no connection ends with two sessions open |
| Registrations.RegistrationTheorem | src/server_mng.c:134-138 | Over any run whatsoever the server stores of each name exactly the password of its first successful registration in the history, and refuses every later registration of it |
| Registrations.PasswordsPersist | src/server_mng.c:124-188 | Over any run whatsoever a registered name stays registered with its password |
| Counterexamples.LeftoverSession | src/server_mng.c:60-64 | Without one login per connection a session can outlive its connection: for any two accounts there is a reachable state in which a new connection is logged in before it sends anything |
| Counterexamples.RefusedLogin | src/server_mng.c:178-181 | The failing login: for any two accounts a run after which one of them, by the history without a session, is refused as logged in already, on whatever connection it tries |
| Handlers.CleanupClient | src/server_mng.c:111-120 | On the real maps, lists and the name array, cleanup does what the specification says and sends nothing |
| Handlers.CleanupGroupAction | src/server_mng.c:75-91 | The member node is found and unlinked, the count lowered, and the name of an emptied group noted while the array has room |
| Handlers.CloseEmptyGroup | src/server_mng.c:94-108 | The group leaves the map and its address goes to the tail of the queue |
| Handlers.HandleRegister | src/server_mng.c:124-158 | The registration handler on the real user map, with its one reply |
| Handlers.HandleLogin | src/server_mng.c:160-188 | The login handler on the real records, with its one reply |
| Handlers.HandleLogout | src/server_mng.c:190-197 | The logout handler: cleanup and a success reply |
| Handlers.HandleExit | src/server_mng.c:199-205 | The exit handler: cleanup and a success reply |
| Handlers.AddMember | src/server_mng.c:208-220 | Adds the fd at the tail of the member list unless it is there; a full group is refused with the one reply of the request |
| Handlers.HandleCreateGroup | src/server_mng.c:222-281 | The create handler on queue, map, record and list, on every failure path too, with its one reply |
| Handlers.HandleJoinGroup | src/server_mng.c:283-310 | The join handler, with its one reply |
| Handlers.HandleLeaveGroup | src/server_mng.c:312-343 | The leave handler, with its one reply |
| ServerLoop.DispatchMessage | src/server_mng.c:347-364 | Any message leads to the specified state and exactly one reply, to the requesting fd, both those of the machine in Refinement.RefinementTheorem; -1 is returned only for an exit |
| ServerLoop.AcceptClient | src/server_net.c:258-283 | A new connection gets the first free slot of the table or the server-full error |
| ServerLoop.HangUpSlot | src/server_net.c:293-298 | The end of a stream is a cleanup followed by freeing the slot |
| ServerLoop.ServeRequest | src/server_net.c:299-305 | A request is dispatched, and an exit also frees the slot |
| ServerRounds.ServerRound | src/server_net.c:256-308 | A round of the main loop on real sockets and structures: the new connection is accepted, then the slots are served in order, exactly those in use whose socket is ready, each with the next message or the end of its own stream; the server ends where this run of the specification takes it, with exactly its replies sent, keeps the invariant and stays reachable; every reliable socket has been written exactly the serialized replies to the fd of its slot, and a socket that is not served is untouched |
| Conversations.RepliesAnswerRequests | src/server_mng.c:347-364 | Over any run an fd is sent one reply for each of its requests and one refusal each time a connection with it was turned away; if none was, the k-th reply is the answer to the k-th request |
| Conversations.StreamAnswersRequests | src/server_net.c:147-194 | Read off the stream, the same: the replies, as bytes back to back, come apart into exactly as many messages, the k-th the answer to the k-th request unless a connection was turned away |
| FullTable.OneTooMany | src/server_net.c:258-283 | The failing input: after 64 connections one more is sent a reply without having asked |
| FullTable.ReadAsAnswer | src/client_net.c:52-115 | Such a client takes the refusal for the answer to whatever it asks first |
| ServerContexts.ServerCreate | src/server_net.c:69-114 | The context starts with empty maps, free slots and the preloaded pool, which AddressPool.PreloadedAre spells out |
| UserTables.UserTable.FindUserByFd | src/server_mng.c:51-64 | A record is returned if and only if some user has the fd, and it is the first one in iteration order |
| UserTables.UserTable.InsertUser | src/server_mng.c:148-152 | The record is stored under its own name, in the place of its bucket, or nothing changes |
| GroupTables.FindMember | src/server_mng.c:45-47 | The list iterator with match_fd ends on the first node with the fd, or at the end if and only if there is none |
| GroupTables.MatchFinds | src/server_mng.c:45-47 | Iterating with match_fd stops if and only if the fd is in the list, at its first occurrence |
| GroupTables.GroupTable.TakeFrom | src/server_mng.c:331-332 | Unlinking a member changes that group alone, whatever shares the map |
| HashMaps.HashMap.constructor | src/ds/HashMap.c:71-103 | The map is empty and its capacity is the least prime from the requested one, at least 4, on |
| HashMaps.HashMap.Insert | src/ds/HashMap.c:157-210 | A new key is stored in front of its bucket's chain, a key already there is refused, a failed allocation changes nothing |
| HashMaps.HashMap.Remove | src/ds/HashMap.c:220-260 | The pair with an equal key is handed out and gone, or the map is unchanged |
| HashMaps.HashMap.FindValue | src/ds/HashMap.c:266-301 | The result is that of the abstract map |
| HashMaps.HashMap.Size | src/ds/HashMap.c:307-314 | The size field is the number of pairs over all chains |
| HashMaps.HashMap.ForEach | src/ds/HashMap.c:320-355 | The action is called on the pairs in bucket and chain order up to and including the first for which it returns zero, and the number of calls is returned |
| HashMaps.HashMap.GetStatistics | src/ds/HashMap.c:363-403 | The chains with something in them are counted, the maximum is the length of some chain and no chain is longer, the average is the size over the chains, rounded down, and there are no more chains than buckets |
| HashMaps.ForEachCounts | src/ds/HashMap.c:476-491 | The counting and stopping wrapper around the user's action calls it as often as a plain visit would, with the same context |
| Assoc.InsertIsUpdate | src/ds/HashMap.c:157-210 | After an insert every key looks up as in the mathematical map updated at the new key |
| Assoc.RemoveIsRestriction | src/ds/HashMap.c:220-260 | After a removal every key looks up as in the mathematical map without the removed key |
| Assoc.InsertKeepsUnique | src/ds/HashMap.c:157-210 | Keys stay unique under the equality function |
| Chains.FindInChain | src/ds/HashMap.c:457-468 | Searching only the chain of the key's bucket finds what searching all pairs would find |
| Chains.PushIsInsert | src/ds/HashMap.c:196-207 | Pushing on the head of one chain is the insertion of the abstract map, and every pair stays in the bucket of its key |
| Chains.UnlinkIsRemove | src/ds/HashMap.c:240-258 | Unlinking from one chain is the removal at the corresponding place of the abstract map |
| Iteration.IterateMeans | src/ds/gen_dlist.c:254-274 | A visit calls the action once per element, in order, up to and including the first that asks to stop |
| Primes.IsPrime | src/ds/HashMap.c:411-424 | Odd trial division up to the square root decides primality for every 64-bit number, although i * i may wrap |
| Primes.SquaresFit | src/ds/HashMap.c:417-420 | Below (2^32 - 1)^2 no square in the loop wraps |
| Primes.NextPrime | src/ds/HashMap.c:431-440 | The search terminates and returns the least prime from n on when there is one within 64 bits |
| Primes.PrimeAbove | src/ds/HashMap.c:431-440 | There is always a prime from n on (Euclid) |
| Primes.ServerCapacities | src/server_net.c:82-87 | The two maps of the server get 67 and 17 buckets |
| Lists.List.InsertNodeBefore | src/ds/gen_dlist.c:22-38 | The node sequence gets the new node at that position, links in both directions stay mutually inverse, and every other node keeps its order |
| Lists.List.RemoveNode | src/ds/gen_dlist.c:43-53 | The node sequence loses exactly that node |
| Lists.RemoveAndPutBack | src/ds/gen_dlist.c:22-53 | Removing a node and inserting its data before its successor restores the list, at any position |
| Lists.Spliced | src/ds/gen_dlist.c:28-36 | A new node between two neighbours makes a proper list again |
| Lists.Unspliced | src/ds/gen_dlist.c:47-50 | Bypassing a node in both directions makes a proper list again |
| Lists.List.PopHead | src/ds/gen_dlist.c:125-132 | The first element is handed out, or nothing when the list is empty |
| Lists.List.PopTail | src/ds/gen_dlist.c:134-141 | The last element is handed out, or nothing when the list is empty |
| Lists.List.Next | src/ds/gen_dlist.c:161-169 | The iterator moves one position on, and the end iterator stays |
| Lists.List.Prev | src/ds/gen_dlist.c:171-179 | The iterator moves one position back, and never onto the head sentinel |
| Lists.List.Remove | src/ds/gen_dlist.c:213-222 | Sentinels are refused; otherwise that element alone goes |
| Lists.List.Size | src/ds/gen_dlist.c:224-242 | Walking from sentinel to sentinel counts the elements |
| Lists.List.ForEach | src/ds/gen_dlist.c:254-274 | The returned iterator stands on the element that stopped the visit, or at the end |
| Queues.Queue.Insert | src/ds/genqueue.c:55-65 | A full queue refuses; otherwise the item comes last, around the end of the buffer too |
| Queues.Queue.Remove | src/ds/genqueue.c:67-76 | The oldest item goes first, and an empty queue says so |
| Queues.Queue.ForEach | src/ds/genqueue.c:82-94 | Oldest first, up to and including the first stop |
| Queues.SlotAfter | src/ds/genqueue.c:13-15 | Stepping one slot on is stepping one item on, across the wraparound |
| Vectors.ShrinkFits | src/ds/vector.c:105-125 | The clamp to the original capacity never fires, shrinking never asks for size zero and never cuts off items |
| Vectors.StepKeeps | src/ds/vector.c:74-133 | The capacity is always the initial one plus whole blocks, and beyond it fewer than two blocks are spare |
| Vectors.RunKeeps | src/ds/vector.c:74-133 | So it is after any operations, appends, removals and failed reallocations in any order |
| Vectors.AmortizedBound | src/ds/vector.c:74-133 | N operations with R >= 1 reallocations satisfy (R - 1) * blockSize < N |
| Vectors.Vector.Append | src/ds/vector.c:74-93 | The item comes last, or nothing changes when the vector cannot grow |
| Vectors.Vector.Remove | src/ds/vector.c:95-133 | The last item is handed out, an empty vector says so, and a failed shrink loses nothing |
| WireFormats.AuthLayout | src/protocol.c:49-74 | Byte by byte: the length of the name, the name, the length of the password, the password; built exactly for tags 1 and 2 and lengths from 1 to 31 and 63 |
| WireFormats.GroupLayout | src/protocol.c:76-94 | The length of the name, then the name; built exactly for tags 5, 6 and 7 and lengths from 1 to 31 |
| WireFormats.InfoLayout | src/protocol.c:129-150 | The length of the address, its text, and the port with its high byte first |
| WireFormats.AuthReading | src/server_mng.c:11-28 | The server reads an account from a message if and only if its value is two such fields within the limits, each string up to its first NUL |
| WireFormats.GroupReading | src/server_mng.c:31-40 | The same for the name of a group |
| WireFormats.InfoReading | src/protocol.c:152-181 | The client reads an address if and only if the tag is 102 and the value starts with a field of at most 15 bytes and a port |
| WireFormats.FrameLayout | src/protocol.c:15-28 | On the stream stand tag, length and value up to 253 value bytes; of 254 nothing goes out, of 255 only the tag |
| WireFormats.FrameReading | src/server_net.c:147-173 | A message is read from exactly the streams that start with its tag, its length and its value, and the rest stays |
| Framing.WireRoundTripIff | src/protocol.c:15-28 | A message arrives as it was sent if and only if its value has at most 253 bytes: the eight-bit total wraps beyond |
| Framing.StreamRoundTripIff | src/protocol.c:15-28 | A list of messages sent back to back is read as exactly that list if and only if no value has more than 253 bytes |
| Network.SendAllMsgs | src/server_net.c:179-194 | Message after message, however short the writes: a reliable connection gets exactly their serializations |
| Network.ReadAllMsgs | src/server_net.c:147-173 | Reading until it fails, however short the reads: exactly the messages of the stream on a reliable connection, the first of them otherwise |
| Network.Transmit | src/server_net.c:147-194 | From one end of a reliable connection to the other, what is read is what was sent if and only if no value has more than 253 bytes |
| Framing.BuiltMessagesArrive | src/protocol.c:49-150 | Built, serialized, read and parsed, every account, group name and address arrives as it was |
| Network.NetReadMsg | src/server_net.c:147-173 | However short the reads, one call takes exactly the first message off the stream, and on a reliable connection fails only if none is complete |
| Network.NetSendMsg | src/server_net.c:179-194 | However short the writes, exactly the serialized message goes out |
| Network.NetSendRecv | src/client_net.c:52-115 | The request goes out whole and the reply is the next message of the stream |
| Network.ReadExactly | src/client_net.c:152-167 | Exactly the asked number of bytes is read, and nothing else of the buffer changes |
| Network.WriteExactly | src/client_net.c:134-149 | All bytes are written in order; on an error a proper prefix of them |
| Buffers.SerializeMsg | src/protocol.c:15-28 | Header and value land in the buffer and nothing behind them changes; the reported length is eight bits |
| Buffers.DeserializeMsg | src/protocol.c:30-47 | Accepts exactly the buffers that hold a complete message, and reads it |
| Buffers.BuildAuthMsg | src/protocol.c:49-74 | Fills the record with the account, or refuses it and leaves the record alone |
| Buffers.BuildGroupMsg | src/protocol.c:76-94 | Fills the record with the group name, or refuses it and leaves the record alone |
| Buffers.BuildGroupInfoMsg | src/protocol.c:129-150 | Fills the record with address and port, or refuses an address that is too long |
| Buffers.ParseGroupInfoMsg | src/protocol.c:152-181 | Takes address and port out of the record, or leaves the output alone |
| Buffers.ParseAuthValue | src/server_mng.c:11-28 | Takes the two strings out of the record, or leaves the outputs alone |
| Buffers.ParseGroupValue | src/server_mng.c:31-40 | Takes the name out of the record, or leaves the output alone |
| Protocol.AuthRoundTrip | src/protocol.c:49-74 | Every account a client may send is recovered by the server |
| Protocol.GroupRoundTrip | src/protocol.c:76-94 | Every group name a client may send is recovered by the server |
| Protocol.GroupInfoRoundTrip | src/protocol.c:129-181 | Every address and port is recovered by the client |
| Protocol.AuthUnambiguous | src/server_mng.c:11-28 | An accepted account message is byte for byte what the builder makes of the parsed strings, if and only if it contains no NUL |
| Protocol.GroupUnambiguous | src/server_mng.c:31-40 | The same for group names |
| Protocol.BuildersAreShort | src/protocol.c:49-150 | Every builder's value has at most 96 bytes |
| Strings.HashString | src/server_net.c:21-28 | The loop over the terminated string computes the hash of its contents, so that equal strings hash equally |
| Strings.HashTheorem | src/server_net.c:21-28 | The hash starts at 5381; each character adds 32 times the hash to it on 64 bits and is xored to the result, bit by bit; 64 bits always suffice |
| Strings.EqualStrings | src/server_net.c:31-33 | The comparison decides equality of contents |
| ClientContexts.ClientContext.RemoveSession | src/client_ui.c:400-409 | Shifting left removes exactly that session, keeps the order of the others and clears the last entry |
| ClientContexts.ClientContext.FindSession | src/client_ui.c:308-316 | The first session with the name is found, if and only if there is one |
| ClientContexts.ClientContext.Clear | src/client_mng.c:176-191 | No session and no name is left in the context |
| ClientContexts.HandleRegister | src/client_ui.c:176-204 | The client's side of a registration on the wire, with the request that Requests.AskTheorem describes |
| ClientContexts.HandleLogin | src/client_ui.c:206-239 | The client's side of a login on the wire; the second screen is reached only by a success reply |
| ClientContexts.HandleCreateGroup | src/client_ui.c:241-291 | The client's side of a create on the wire; a full array refuses without asking the server, and nothing else but the name does |
| ClientContexts.HandleJoinGroup | src/client_ui.c:293-354 | The client's side of a join on the wire; a group already listed is refused without asking the server, and so are a full array and a malformed name, but no other join |
| ClientContexts.HandleLeaveGroup | src/client_ui.c:356-413 | The client's side of a leave on the wire |
| ClientContexts.ClientLogout | src/client_mng.c:24-60 | The request goes out, and the context is cleared whatever the answer |
| ClientSessions.ScriptDiscipline | src/client_ui.c:24-109 | In a session of menu choices every command is given on its own screen, and each exchange starts where the one before it ended |
| ClientContexts.ClientExit | src/client_mng.c:62-93 | The exit request goes out, whatever comes back, and the context is cleared |
| ClientContexts.RunScreen1 | src/client_ui.c:24-66 | Every input up to an exit is carried out, in order, as the command it stands for on the screen that is shown: register, log in and exit while not logged in, group commands while logged in; what each exchange puts on the wire is stated by choice and tag (Requests.Followed) |
| ClientContexts.RunScreen2 | src/client_ui.c:68-109 | Every input up to a logout is carried out, in order, as the group command it stands for, while logged in, with the tags 7, 5, 6 and 3; the screen is left exactly by a logout, which clears the context |

## Left out

- Handlers.CleanupClient: the sweep visits the records in iteration order in a loop of its own instead of through HashMap_ForEach, because actions passed to that method are pure functions here; the visiting order and count are those proved of HashMap_ForEach.
- HashMaps.HashMap.ForEach: actions that read or write the stored values.
- UserTables.UserTable.FindUserByFd: likewise a loop over the pairs in iteration order, stopping at the first match.
- UserTables.UserTable.InsertUser: the allocations inside HashMap_Insert succeed or fail together on behalf of a handler (they are independent in HashMaps.HashMap.Insert).
- Handlers.HandleRegister: the user map and its records are one object of the model (a table), as are the group map and its records, so that each knows what it owns; keys are the names of the records, as in the code.
- ServerLoop.DispatchMessage: handlers record their replies with the fd, and ServerRounds.ServeSlot writes what a turn has recorded to the socket of its slot when the turn ends, not inside the handler. The code ignores a reply that net_send_msg cannot write; so does the model, and a socket that is not reliable promises nothing about its output.
- ServerLoop.AcceptClient: the refusal to a connection that gets no slot is recorded, and not written to a socket of its own.
- ServerContexts.ServerCreate: allocation failures while the server starts, which end the program.
- ServerRounds.ServerRound: which slots are ready comes from outside; signals, select errors and the shutdown flag are not modelled.
- Network.NetReadMsg: the bytes still to come are known in advance to the model of a socket; how many of them a read returns is not.
- ClientContexts.RunScreen1: menu choices and typed strings are inputs; prompts, messages and the length limit of read_input are left out (the builders refuse longer strings).
- ClientContexts.ClientExit: the end of the process and the closing of the socket.
- ClientContexts.ClientLogout: the chat windows of a session (process ids, the message queue, kill).
- System: a client that the server turns away because all slots are taken does not take part in the composed system.
- Primes.NextPrime: for n above the greatest 64-bit prime the counter wraps and the search ends at 2; no caller gets there.
- Freeing memory (HashMap_Destroy, ListDestroy, QueueDestroy, VectorDestroy, server_destroy) and guards against null arguments.
- Setting up sockets, and the text forms of addresses beyond the sixteen of the pool.
- src/sender.c and src/receiver.c: UDP plumbing without state of its own.
- HashMap_Rehash, which is declared and not implemented, and VectorForEach, whose return value the header describes in two ways.
