# Hovorun, verified

Hovorun is a server for an old ProudNet game client.  It runs on one thread; every handler is one atomic
step.  This project models its hard parts in Dafny and proves what they promise over every input and every
run.  `dafny verify dfyconfig.toml` checks all of it.

## What is modelled

**Rooms, P2P groups and host ids** (`Hosts`, `Net`, `NetRuns`, `NetServer`, `Game`, `RoomViews`, `GameInv`,
`Entering`, `Opening`, `Handlers`, `GameRuns`, `Outsiders`, `GameTheorems`, `GameEffects`, `GameWitness`,
`Requests`, `FullTable`, `GameServer`).
Four tables are updated separately: the seats of each room, the player records, the P2P groups and the ids
shared by clients and groups.  `GameInv.Inv` says that they agree and that every client which folds the
messages on its connection holds the server's picture of its room and of its group.  Each callback of the
server that has an outcome keeps `Inv` if and only if it is none of these (`GameRuns.StepExact`): a logon sent
from inside a room, entering the room one is already alone in, and a client accepted or a room opened when no id
is left.  The first two are reached by ordinary runs (`GameWitness`), the last takes some 2^32 live hosts
(`NetRuns.IdsRunOut`).  Everything else about rooms follows for all runs without them.

Two requests have no outcome in the source and are left out of that statement (`Game.Defined`): creating a room
when all 65535 numbers are taken, where the search never ends (`Opening.SearchEndsExactly`; a run gets there,
`FullTable.SearchCanGoOnForEver`), and a GM alone in its room kicking itself by name from a slot other than the last,
where the source goes on reading slots of the room it has released (`GameEffects.SweepReadsExactly`).

A room object is referred to by its index in the sequence of all rooms ever made, and the list of rooms maps
numbers to indices; so a room that was taken off the list and is still pointed at can be expressed, as it can
with shared pointers.  Host ids are counted on 32 bits: the last one is still new, but with it the counter wraps,
and the ids after it are 0, 1, 2 and then one in use (`NetRuns.WrappedCounterReissues`).

**Key exchange** (`Arith`, `Bytes`, `Limbs`, `Bigint`, `Rsa`).  Numbers in 32-bit limbs, their multiplication
with 64-bit accumulators, binary long division, square and multiply, RSAES-PKCS1-v1_5 padding (section 7.2.1
of RFC 8017), and the two CryptoAPI blobs.  The client's half, which the repository does not contain, is
written as a specification (`Rsa.OpenBlob`), and that a private exponent exists is a hypothesis
(`Rsa.KeyPair`).

**Bytes to messages** (`Rc4`, `Rc4Vector`, `Utf`, `Wire`, `Records`, `Framing`, `Pipeline`, `Samples`).  Every layer has
its inverse, and `Pipeline.EndToEnd` composes frames, reads, cipher and serials into one statement.  Since a round trip
alone would hold for any layout, layouts and constants are also stated byte by byte, and the cipher is held to a
published key stream.  Bytes are numbers below
256; shifts and masks are written as division, remainder and sums of disjoint ranges, exclusive or by
recursion over bits.  Text conversion follows section 3 of RFC 3629 and section 2 of RFC 2781 as far as the
source does: it decodes leniently, so `Utf.Utf8RoundTripExact` states precisely which byte strings come back.

**One connection** (`Peers`, `PeerLife`, `Conversation`, `PeerEffects`, `PeerServer`).  The four phases, what arrives in each,
and callbacks that may send on or close the connection they were called for, to any depth.  What is random or
up to the game is an argument (`Choice`, `Act`); what the connection does to the outside is its log.

**From tables to bytes** (`Notices`).  The P2P notices in their byte layout: what a client decodes from its reads is
what the member tables hold.

**Friendships** (`Messenger`, `MessengerServer`).  Requests, answers and deletions over the user table.

Where the source updates objects in place there are classes (`NetServer.Server`, `GameServer.Server`,
`Bigint.BigInt`, `Wire.Reader`, `Wire.Writer`, `Framing.FrameParser`, `PeerServer.Connection`,
`MessengerServer.Server`), and RC4 works on arrays; each method is proved against a function, and the theorems
are about those functions.

## Where the source falls short of what one would expect

- Logging on again from inside a room leaves a seat without an owner; entering the room one is alone in seats
  the player in a room that was just taken off the list (`GameWitness.SecondLogonBreaks`,
  `GameWitness.ReentryBreaks`).  `GameRuns.StepExact` says that, short of running out of ids, no other callback
  with an outcome breaks the tables.
- A peer that is put into a P2P group before it is connected is never told, and its picture is wrong from the moment
  it is connected (`NetRuns.EarlyJoinBreaksView`).  `NetRuns.StepExact` says that connecting a peer that is in a
  group is the only step that does this; `NetRuns.RunExact` says it of whole runs.  The game never does it.
- A GM alone in its room that kicks itself by name from any slot but the last makes the source read slots of a room it
  has released (`GameWitness.SelfKickReadsReleased`).  From the last slot nothing is left to read, and for any other
  name or with anyone else in the room the room outlasts the sweep: `GameEffects.SweepReadsExactly`.
- The search for a room number goes on for ever once all are taken (`FullTable.SearchCanGoOnForEver`).
- A friendship that was deleted can come back without a new request when requests had crossed
  (`Messenger.CrossedRequestsOutliveDeletion`); `Messenger.DeletionFinalExactly` says when it cannot.
- Bytes that spell a surrogate pair as two three-byte sequences are rewritten by a trip through UTF-16
  (`Utf.SpelledPairChanges`; `Utf.Utf8RoundTripExact` is the exact condition).
- `mod_pow` gives 1 for an exponent of 0 even modulo 1 (`Bigint.PowModOfOne`; `Bigint.PowModExactly` says nowhere
  else), and a number modulo 0 is itself (`Bigint.BigInt.Mod`).

## Model

| member | source | states |
|---|---|---|
| Net.AllocateFresh | src/proudnet/server.cpp:414-428 | an id handed out is live nowhere, not free any more, and never 0, 1, 2 or 50 |
| Net.AllocatesLeast | src/proudnet/server.cpp:414-428 | the id handed out is the least from 3 on, 50 excepted, that no client or group has |
| Net.AcceptExact | src/proudnet/server.cpp:375-391 | accepting a client keeps the id partition and every view of every group if and only if an id is free or the counter does not wrap |
| Net.CreateGroupExact | src/proudnet/server.cpp:471-479 | likewise creating a group |
| Net.JoinKeepsInv | src/proudnet/server.cpp:481-498 | a join tells old members of the new one and the new one of all, so every folded view equals the member set |
| Net.LeaveKeepsInv | src/proudnet/server.cpp:500-509 | a leave tells everyone it concerns, the leaver included, whose view empties |
| Net.DestroyKeepsInv | src/proudnet/server.cpp:511-522 | destroying a group empties every member's view before the id is freed |
| Net.PeerClosedKeepsInv | src/proudnet/server.cpp:456-468 | a closed peer leaves every group, its id is freed, all other views stay exact |
| Net.PhaseExact | src/proudnet/server.cpp:255-292 | a peer moving to a later phase keeps all views exact if and only if it does not become connected while a member of a group |
| Net.IdsPartition | src/proudnet/server.cpp:414-430 | issued ids are the disjoint union of clients, groups and free ids |
| NetRuns.StepExact | src/proudnet/server.cpp:375-522 | every operation keeps ids partitioned and views exact if and only if an id was at hand for it and it does not connect a peer that is in a group |
| NetRuns.IdsExact | src/proudnet/server.cpp:375-522 | ids stay partitioned if and only if an id was at hand, whoever was told of what |
| NetRuns.RunExact | src/proudnet/server.cpp:375-522 | ids are partitioned and views exact at every moment of a run if and only if every step of it is safe |
| NetRuns.CounterMovesLast | src/proudnet/server.cpp:414-428 | the counter moves only when no freed id is left |
| NetRuns.IdsAreConserved | src/proudnet/server.cpp:414-479 | over every run in which ids do not run out: clients, groups and free ids partition the issued ids, 50 is never issued, and their number is the peak ever live at once |
| NetRuns.GroupViewsReplicate | src/proudnet/server.cpp:456-555 | over every safe run, with ids recycled and early joins that end in time: folding the notices on a connection gives exactly the members of each group the client is in, and nothing for any other |
| NetRuns.EarlyJoinBreaksView | src/proudnet/server.cpp:438-442 | a run that connects a peer already in a group: it never learns of its own group |
| NetRuns.WrappedCounterReissues | src/proudnet/server.cpp:422-427 | at the end of the id space the last id is still new; the four after it are 0, 1, 2 and one in use |
| NetRuns.IdsRunOut | src/proudnet/server.cpp:422-427 | a run that gets there |
| NetServer.RelayReaches | src/proudnet/server.cpp:642-653 | who a destination list reaches: members of listed groups but the sender, and listed hosts |
| NetServer.RelayDeliversOnce | src/proudnet/server.cpp:682-706 | each connected host reached gets exactly one copy, nobody else any, however groups and hosts overlap or repeat |
| NetServer.Server.AllocateHostId | src/proudnet/server.cpp:414-428 | the object does what the id theorems are about |
| NetServer.Server.SendTo | src/proudnet/server.cpp:438-442 | only a connected host hears anything |
| NetServer.Server.CreateP2PGroup | src/proudnet/server.cpp:471-479 | the object's group creation is the one the view theorems are about |
| NetServer.Server.JoinP2PGroup | src/proudnet/server.cpp:481-498 | the notification loops produce exactly the specified notices, in order |
| NetServer.Server.LeaveP2PGroup | src/proudnet/server.cpp:500-509 | likewise for leaving |
| NetServer.Server.DestroyP2PGroup | src/proudnet/server.cpp:511-522 | the loop over a copy of the members leaves no one notified twice or not at all |
| NetServer.Server.OnPeerClosed | src/proudnet/server.cpp:456-468 | the loop over all groups removes the peer from each and frees its id |
| NetServer.Server.RelayUnreliable | src/proudnet/server.cpp:682-706 | the loops over destinations and members amount to one broadcast to the set reached |
| Notices.JoinRead | src/proudnet/server.cpp:530-546 | the join notice in bytes is read back as group and member |
| Notices.LeaveRead | src/proudnet/server.cpp:548-555 | the leave notice likewise |
| Notices.NotifyJoin | src/proudnet/server.cpp:530-546 | the writer builds the join notice |
| Notices.NotifyLeave | src/proudnet/server.cpp:548-555 | the writer builds the leave notice |
| Notices.BytesTellGroups | src/proudnet/server.cpp:456-555 | over every safe run, from member tables to reads: a client that decodes and folds its byte stream, cut anywhere and with any other messages in between, holds the member set of each group it is in and nothing for any other |
| Notices.BytesTellRoom | src/game/game_server.cpp:398-503 | over every run of the game server: a player in a room reads from its bytes exactly who is in that room |
| GameRuns.StepExact | src/game/game_server.cpp:148-710 | a callback with an outcome keeps all tables and all client views in agreement if and only if it is neither a logon from inside a room, nor a re-entry into the room one is alone in, nor in need of an id when none is left |
| GameRuns.LogonExact | src/game/game_server.cpp:176-225 | a logon drops the older session of the account and keeps the invariant exactly when the connection is in no room |
| GameRuns.CloseKeeps | src/proudnet/server.cpp:53-69 | closing removes the client from room, groups, player table and peers, touching no other record |
| Handlers.HandleExact | src/game/game_server.cpp:227-710 | likewise for a request of a logged-in player |
| Handlers.FollowExact | src/game/game_server.cpp:439-462 | joining a room keeps it exactly when that room is not the one the player is alone in |
| Handlers.JoinStarts | src/game/game_server.cpp:439-447 | after leaving the old room a free slot of the new one is still there, the player is in no room, and the room is still listed unless the player was alone in it |
| Handlers.CreateExact | src/game/game_server.cpp:376-408 | creating a room, or being refused, keeps the invariant exactly when there is an id for its group, which there always is for a player leaving a room it was alone in |
| Handlers.LeavingFrees | src/game/game_server.cpp:472-492 | leaving makes an id and a room number available exactly when the player was alone, and takes neither away |
| Handlers.GmSweepKeeps | src/game/game_server.cpp:691-710 | the sweep keeps the invariant after every slot, while it changes the table it walks over |
| GameInv.RemoveKeeps | src/game/game_server.cpp:472-503 | leaving or being kicked keeps tables, groups and the view of everyone staying, through master migration and removal of the room |
| Entering.SitKeeps | src/game/game_server.cpp:449-462 | taking the lowest free slot keeps them, the newcomer's fresh view included |
| Entering.SeatsOfMembers | src/game/game_server.cpp:449-459 | the member list sent to a newcomer, written from the player records, spells out the seat table |
| Opening.FreeNumberExactly | src/game/game_server.cpp:389-391 | the search for a room number finds an unused one other than 0 if and only if there is one |
| Opening.FreeNumberFirst | src/game/game_server.cpp:389-391 | the number found is the first unused one from the counter on |
| Opening.SearchEndsExactly | src/game/game_server.cpp:389-391 | the loop comes to an end if and only if a number is left |
| Opening.FullTableHasNone | src/game/game_server.cpp:389-391 | with all 65535 numbers taken no candidate ever ends it |
| FullTable.SearchCanGoOnForEver | src/game/game_server.cpp:389-391 | a run, safe at every step, after which no number is left for a player in a channel who creates a room |
| Opening.OpenExact | src/game/game_server.cpp:376-408 | a new room with its new group keeps everything consistent, the view of its creator included, if and only if there is an id for the group |
| GameTheorems.Reachable | src/game/game_server.cpp:148-710 | every state of every run without the exceptions satisfies the invariant |
| GameTheorems.RecordsMatchSeats | src/game/game_server.cpp:376-503 | over every run: a record points at slot i of room r exactly when r is listed and slot i holds that host |
| GameTheorems.OneSeatEach | src/game/game_server.cpp:439-503 | over every run: no host fills two seats |
| GameTheorems.RoomsMatchGroups | src/game/game_server.cpp:376-503 | over every run: listed rooms and P2P groups are in bijection and a group is its room's players |
| GameTheorems.RoomsAreSound | src/game/game_server.cpp:376-620 | over every run: listed rooms are non-empty with an occupied master slot, occupants sit in open slots below a maximum in 1..8, players are connected and in a valid channel when in a room, accounts have one session |
| Outsiders.HandleOutside | src/game/game_server.cpp:227-710 | every request that keeps the tables leaves each client outside all rooms with no picture of one: it was told when it left or was kicked |
| Outsiders.StepOutside | src/game/game_server.cpp:148-710 | likewise every callback |
| GameTheorems.RoomViewsReplicate | src/game/game_server.cpp:398-503 | over every run: folding the messages on a connection gives the server's seats, closed slots and master if the client is in a room, and nothing if it is in none |
| GameTheorems.GroupViewIsRoom | src/game/game_server.cpp:398-503 | over every run: the P2P members a player was told of are the occupants of its room |
| GameTheorems.GmCloseLeavesCaller | src/game/game_server.cpp:691-700 | the caller ends as sole occupant and master, its record unchanged |
| GameTheorems.RaceOnlyShrinks | src/game/game_server.cpp:410-447 | while a room is being played and no member returns to the waiting room, under any interleaving of callbacks, its occupants only become fewer and it stays played |
| GameEffects.LeaveEffect | src/game/game_server.cpp:472-503 | leaving vacates one seat and moves nobody else; the last one out takes room and group with it, otherwise a vacated mastership passes to the lowest occupied slot and any other stays |
| GameEffects.JoinEffect | src/game/game_server.cpp:439-462 | the player ends in the lowest free slot of that room, every other record as it was |
| GameEffects.CreateEffect | src/game/game_server.cpp:376-408 | the creator ends alone in a new room as master in slot 0, under an unused number past which the counter moves, with a capacity in 1..8, in its own channel |
| GameEffects.KickEffect | src/game/game_server.cpp:595-602 | exactly the occupant of the named slot of the master's own room leaves, never the master; from anyone else nothing happens |
| GameEffects.GmKickEffect | src/game/game_server.cpp:702-710 | exactly the bearers of that name in the room of the caller leave, the caller too if it names itself |
| GameEffects.SweepReadsExactly | src/game/game_server.cpp:691-710 | every slot a sweep reads is read from a listed room if and only if it is not a GM that is alone kicking itself by name from a slot other than the last |
| Requests.VisitEffect | src/game/game_server.cpp:410-462 | a player is let into a room if and only if its number is listed, it is in the player's channel and not being played, its password is empty or the one given, and an open empty slot below the maximum is left; it then sits in the lowest; otherwise it is told the code of the first thing wrong and nothing else happens |
| Requests.QuickEffect | src/game/game_server.cpp:430-437 | quick join leads into the lowest-numbered such room without a password; if there is none, only the answer |
| Requests.StartEffect | src/game/game_server.cpp:637-651 | on the word of the master, and of no one else, the room is being played and every connected occupant is told |
| Requests.WaitEffect | src/game/game_server.cpp:673-682 | a member that returns to the waiting room ends the race |
| Requests.RaceFromStart | src/game/game_server.cpp:410-447 | from the moment the master starts the game until a member returns to the waiting room, under any interleaving of callbacks, the room is being played and its occupants only become fewer |
| Requests.CloseSlotEffect | src/game/game_server.cpp:604-611 | only the master closes a slot, only an empty one, and then it is closed |
| Requests.OpenSlotEffect | src/game/game_server.cpp:613-620 | only the master opens a slot, and then it is open |
| Requests.LobbyEffect | src/game/game_server.cpp:236-282 | going to the lobby and leaving a channel end in no room and no channel, with their answers |
| Requests.ChangeChannelEffect | src/game/game_server.cpp:283-300 | changing the channel ends in that channel and no room; a channel that does not exist is refused and changes nothing |
| Requests.EnterChannelEffect | src/game/game_server.cpp:258-274 | entering a channel keeps the room; a channel that does not exist is refused and changes nothing |
| Requests.LeaveEffects | src/game/game_server.cpp:227-234 | logging out and leaving end in no room and the same channel; leaving from no room is refused |
| Requests.CreateRefused | src/game/game_server.cpp:376-384 | without a channel no room is made |
| Requests.LoginEffect | src/game/game_server.cpp:195-225 | a login gives a fresh record under that name in no channel and no room, ends the other session of that name and touches no other record |
| Requests.LoginRefused | src/game/game_server.cpp:185-193 | a failed login is answered and nothing else happens |
| Requests.ConnectionEffects | src/proudnet/server.cpp:230-292 | clients come in unconnected, move on one phase at a time, and are gone if key or version is wrong |
| GameWitness.SecondLogonBreaks | src/game/game_server.cpp:205-210 | a run to a state satisfying the invariant that a second logon breaks |
| GameWitness.ReentryBreaks | src/game/game_server.cpp:439-447 | a run to a state satisfying the invariant that re-entry breaks |
| GameWitness.SelfKickReadsReleased | src/game/game_server.cpp:707-709 | a run to a state in which such a sweep goes on over a room that is no longer listed |
| GameServer.Server.PlayerCount | src/game/game_server.hpp:59 | the counting loop counts the occupied slots |
| GameServer.Server.FreeSlot | src/game/game_server.hpp:60-67 | the search finds the lowest open empty slot below the capacity, or none |
| GameServer.Server.SendRoom | src/game/game_server.cpp:159-164 | the loop over slots sends to every occupant but one |
| GameServer.Server.RemoveFromRoom | src/game/game_server.cpp:472-503 | the in-place removal is the step the invariant is proved for |
| GameServer.Server.JoinRoom | src/game/game_server.cpp:439-462 | likewise joining |
| GameServer.Server.NextRoomNumber | src/game/game_server.cpp:389-391 | the loop terminates, if a number is left, at the number specified |
| GameServer.Server.CreateRoom | src/game/game_server.cpp:376-408 | likewise creating a room, with its refusals |
| GameServer.Server.EnterRoomNumbered | src/game/game_server.cpp:410-428 | the refusals in order: unknown room, game running, wrong password, full; then the join |
| GameServer.Server.QuickJoin | src/game/game_server.cpp:430-437 | the loop takes the lowest-numbered room of the channel that anybody may enter |
| GameServer.Server.Kick | src/game/game_server.cpp:595-602 | only the master kicks, never itself |
| GameServer.Server.GmSweep | src/game/game_server.cpp:691-710 | the loop over slots removes as specified while the slots change under it |
| GameServer.Server.Handle | src/game/game_server.cpp:227-710 | every modelled request, as the invariant is proved for it |
| GameServer.Server.OnClientLeave | src/game/game_server.cpp:148-157 | the record goes after the room was left |
| GameServer.Server.ClosePeer | src/proudnet/server.cpp:53-69 | phase first, then the game, then groups, peer and id |
| GameServer.Server.DropOlderSession | src/game/game_server.cpp:195-203 | the loop finds and closes the other session of the account |
| GameServer.Server.Logon | src/game/game_server.cpp:176-225 | the whole logon, failure included |
| GameServer.Server.Callback | src/game/game_server.cpp:120-225 | one event-loop callback of the object is one step of the runs |
| Bigint.AccumulatorFits | src/crypto/rsa.hpp:97-103 | product, old limb and carry together never exceed 2^64-1 |
| Bigint.BigInt.AddRow | src/crypto/rsa.hpp:94-104 | one row of the product adds exactly x * b at its place, carry included |
| Bigint.BigInt.Mul | src/crypto/rsa.hpp:88-107 | the exact product, trimmed |
| Bigint.BigInt.Compare | src/crypto/rsa.hpp:78-86 | on trimmed numbers the comparison by length and limbs is numeric order |
| Limbs.ShorterIsSmaller | src/crypto/rsa.hpp:80-81 | a trimmed number with fewer limbs is smaller |
| Limbs.TopDecides | src/crypto/rsa.hpp:82-85 | the highest differing limb decides |
| Bigint.BigInt.Shl1 | src/crypto/rsa.hpp:148-159 | doubles the value, growing a limb when needed |
| Bigint.BigInt.Sub | src/crypto/rsa.hpp:162-172 | subtracts a smaller number through the borrow loop and stays trimmed |
| Bigint.BigInt.BitLength | src/crypto/rsa.hpp:58-70 | the least number of bits that holds the value |
| Bigint.BigInt.TestBit | src/crypto/rsa.hpp:72-76 | that bit of the value, false beyond its end |
| Bigint.BigInt.Mod | src/crypto/rsa.hpp:110-126 | the remainder by shift, compare and subtract; the number itself modulo 0 |
| Bigint.BigInt.ModPow | src/crypto/rsa.hpp:128-139 | base^exp mod m for m > 0 through the loop over exponent bits, and 1 for exponent 0 |
| Bigint.PowModStep | src/crypto/rsa.hpp:132-137 | one round of square and multiply extends the exponent read so far by a bit |
| Bigint.PowModExactly | src/crypto/rsa.hpp:128-139 | for m > 0 what the loop computes is base^exp mod m except for exponent 0 modulo 1 |
| Bigint.PowModOfOne | src/crypto/rsa.hpp:130-138 | there it leaves 1 |
| Bigint.BigInt.FromLeBytes | src/crypto/rsa.hpp:25-33 | the number the bytes spell, trimmed |
| Bigint.BigInt.FromBeBytes | src/crypto/rsa.hpp:35-39 | the number the reversed bytes spell |
| Bigint.BigInt.ToLeBytes | src/crypto/rsa.hpp:50-56 | the value in exactly that many bytes |
| Bigint.BigInt.Trim | src/crypto/rsa.hpp:142-146 | drops leading zero limbs, keeps the value |
| Rsa.UnpadPad | src/crypto/rsa.hpp:228-240 | the padded block fills k bytes and strips back to the message: no zero byte in the padding, at least eight of them |
| Rsa.BlockRecovered | src/crypto/rsa.hpp:242-245 | under a key pair the block comes back exactly when its number is below the modulus |
| Rsa.SessionKeyArrives | src/crypto/rsa.hpp:225-263 | for every key pair with a full-length modulus, padding and key, undoing the blob gives the session key |
| Rsa.ParsesExported | src/crypto/rsa.hpp:204-222 | parsing an exported public key, whatever follows it, gives that key |
| Rsa.ParsedIsExported | src/crypto/rsa.hpp:204-222 | only such blobs are parsed: what was read is what an exported key has at those places |
| Rsa.ParsePublicKeyBlob | src/crypto/rsa.hpp:204-222 | the object parses what the specification parses, with the same errors |
| Rsa.PadBlock | src/crypto/rsa.hpp:228-240 | the loops fill the zeroed buffer to the padded block |
| Rsa.Pkcs1Encrypt | src/crypto/rsa.hpp:225-245 | the ciphertext in big-endian order, or the error for a long message |
| Rsa.MakeSimpleBlob | src/crypto/rsa.hpp:249-263 | the blob whose opening SessionKeyArrives is about |
| Rsa.WrapForClient | src/proudnet/server.cpp:230-253 | parse, wrap, open: the client ends with the key the server chose |
| Rc4.TableStaysPermutation | src/crypto/rc4.hpp:13-34 | through key schedule and output the table is a permutation of 0..255 |
| Rc4.XorTwice | src/crypto/rc4.hpp:28-34 | the same mask twice restores a byte |
| Rc4.AppliedTwice | src/crypto/rc4.hpp:13-35 | applying the cipher twice restores any buffer |
| Rc4.KeysByTheirStates | src/crypto/rc4.hpp:19-24 | two keys of one length pass through the same states of the schedule if and only if they are the same key |
| Rc4Vector.PublishedStream | src/crypto/rc4.hpp:13-35 | for the key 01 02 03 04 05 the stream begins b2 39 63 05, as published in section 2 of RFC 6229 |
| Rc4Vector.PublishedVector | src/crypto/rc4.hpp:28-34 | encrypting zeros under it gives those bytes |
| Rc4.Schedule | src/crypto/rc4.hpp:15-25 | the swapping loops compute the key schedule |
| Rc4.Apply | src/crypto/rc4.hpp:13-35 | in place, each byte is masked by a stream that depends on the key and the position alone |
| Utf.Utf16RoundTrip | src/net/message.hpp:120-293 | every code-unit sequence, unpaired surrogates included, survives the way to UTF-8 and back |
| Utf.Utf8RoundTripExact | src/net/message.hpp:271-293 | bytes survive the way to UTF-16 and back exactly when they consist of UTF-8 characters and spell no surrogate pair as two of them |
| Utf.SpelledPairChanges | src/net/message.hpp:271-293 | six bytes that spell a surrogate pair do not come back |
| Utf.Utf8RoundTrip | src/net/message.hpp:271-293 | well-formed UTF-8 survives |
| Utf.ConvertToUtf16 | src/net/message.hpp:120-152 | the decoding loop, with its lenient branches, computes the conversion |
| Utf.ConvertToUtf8 | src/net/message.hpp:271-293 | the encoding loop computes the conversion |
| Wire.ScalarBack | src/net/message.hpp:76-98 | every 64-bit value written as a compact scalar is read back, whatever follows |
| Wire.WidthIsLeast | src/net/message.hpp:76-98 | the width written is the least of 1, 2, 4 and 8 that holds the value |
| Wire.ArrayBack | src/net/message.hpp:155-159 | byte arrays are read back |
| Wire.TextBack | src/net/message.hpp:240-256 | a written text is read back exactly when it is free of spelled-out surrogate pairs, always when well-formed |
| Wire.PlainBack | src/net/message.hpp:240-256 | a string of any other type is its bytes as they stand |
| Wire.NegativeRefused | src/net/message.hpp:231-246 | a negative length is refused by strings and by byte arrays |
| Wire.BadPrefixRefused | src/net/message.hpp:214-229 | a scalar prefix that is none of the four widths is refused |
| Wire.Writer.WriteScalar | src/net/message.hpp:76-98 | appends the shortest of the four spellings |
| Wire.Writer.WriteText | src/net/message.hpp:118-152 | appends the UTF-16 spelling |
| Wire.Reader.ReadScalar | src/net/message.hpp:214-229 | value or exception, and the offset left behind |
| Wire.Reader.ReadString | src/net/message.hpp:240-256 | both flavours, each exception, and the offset left behind |
| Records.RecordBack | src/game/gscl_types.hpp:219-264 | any structure written field by field is read back, whatever surrounds it, exactly when its texts survive |
| Records.RoomBack | src/game/gscl_types.hpp:199-265 | room_info is read back exactly when its three texts survive, always when they are well-formed |
| Records.RoomSpelled | src/game/gscl_types.hpp:219-239 | room_info on the wire, spelled out: three 16-bit numbers, six bytes, three texts, three bytes, eight slots, a flag, each the field it is |
| Records.RoomOffsets | src/game/gscl_types.hpp:224-229 | players, maximum, map, mode, laps and the byte after them stand at offsets 6 to 11 |
| Records.AvatarBack | src/game/gscl_types.hpp:307-343 | avatar_info is always read back |
| Records.AvatarSpelled | src/game/gscl_types.hpp:315-325 | avatar_info is 81 bytes, and each field stands at its offset |
| Records.WriteFields | src/game/gscl_types.hpp:219-239 | the fields are appended in order |
| Records.ReadFields | src/game/gscl_types.hpp:242-264 | the fields in order, or the first exception |
| Framing.ChunkingIsIrrelevant | src/net/framing.hpp:41-73 | however a stream is cut into reads, draining after each gives the payloads and the verdict of the whole |
| Framing.DrainAppend | src/net/framing.hpp:44-73 | more bytes never change what was decided: draining in two goes is draining at once |
| Framing.FrameBack | src/net/framing.hpp:21-28 | a frame parses to its payload exactly up to the size limit and is refused beyond |
| Framing.FramesBack | src/net/framing.hpp:21-73 | concatenated frames parse back to the payloads with nothing left |
| Framing.BadFrames | src/net/framing.hpp:44-64 | a wrong magic number, a prefix that is no width and a negative length are fatal as soon as seen |
| Framing.PartWaits | src/net/framing.hpp:44-68 | anything short of a whole frame is waited for |
| Framing.MakeFrame | src/net/framing.hpp:21-28 | the writer builds the frame |
| Framing.FrameParser.Next | src/net/framing.hpp:44-73 | the next payload leaves the buffer and nothing else does; every error leaves it |
| Framing.FrameParser.Serve | src/proudnet/server.cpp:125-169 | feed and drain until the parser wants more or fails |
| Pipeline.SealedOpens | src/proudnet/server.cpp:73-96 | a sealed message opens to its payload exactly when its serial is the one expected; otherwise it is dropped and the expectation stays |
| Pipeline.UnreliableOpens | src/proudnet/server.cpp:294-322 | an unreliable envelope opens to its whole content, whatever serial is expected, and leaves the expectation |
| Pipeline.NoKeyNoEnvelope | src/proudnet/server.cpp:294-297 | before there is a key, envelopes are dropped |
| Pipeline.DeliveredInTurn | src/proudnet/server.cpp:294-322 | of any sequence of sealed messages, with any serials, exactly the payloads whose turn it is are delivered |
| Pipeline.SendableExactly | src/proudnet/server.cpp:73-90 | sealing costs nine bytes of the frame limit, no more and no less |
| Pipeline.StreamDelivers | src/proudnet/server.cpp:125-169 | whatever the serials and the cuts, at every moment the delivered payloads are the in-turn content of the complete messages |
| Pipeline.EndToEnd | src/proudnet/server.cpp:73-322 | what one side seals, frames and sends arrives as the same payloads in the same order, a prefix at every moment, all of it at the end, with serials agreeing modulo 2^16 |
| Samples.ScalarSamples | src/net/message.hpp:76-98 | compact scalars byte by byte |
| Samples.FrameSample | src/net/framing.hpp:13-28 | a frame byte by byte, and the size limit |
| Samples.EnvelopeSample | src/proudnet/server.cpp:80-90 | an envelope byte by byte, under the key with the published stream |
| Samples.BlobSamples | src/crypto/rsa.hpp:184-222 | the headers of the two CryptoAPI blobs byte by byte |
| Samples.CharacterSamples | src/net/message.hpp:120-152 | one character of each length in both encodings |
| Samples.LenientSamples | src/net/message.hpp:120-152 | what becomes of bytes that are no character |
| Samples.TextSample | src/net/message.hpp:100-118 | a text byte by byte |
| Samples.NoticeSamples | src/proudnet/server.cpp:530-555 | the two group notices byte by byte |
| Samples.KeySample | src/proudnet/server.cpp:243-250 | the message with the session key starts with its type, and the key has sixteen bytes |
| Samples.WelcomeSample | src/proudnet/server.cpp:274-288 | the answer to an admitted client and the message after it byte by byte |
| PeerLife.CloseIs | src/proudnet/server.cpp:53-69 | a close appends leave (if joined) and release and nothing else, whatever the game does to the connection meanwhile |
| PeerLife.ClosedInert | src/proudnet/server.cpp:73-76 | nothing moves a closed connection |
| PeerLife.StepLeads | src/proudnet/server.cpp:194-336 | every read, failure and outside action keeps the order of events and the serials due |
| PeerLife.RunLeads | src/proudnet/server.cpp:53-336 | likewise between any two moments of any run |
| PeerLife.CallbacksPairUp | src/proudnet/server.cpp:53-69 | over every run: at most one join; exactly as many leaves as joins once closed and none before; exactly one release, when closed |
| PeerLife.CallbacksInOrder | src/proudnet/server.cpp:194-336 | over every run: calls fall between join and leave, the leave before the release, nothing after it |
| PeerLife.KeyAndPhaseStay | src/proudnet/server.cpp:230-292 | over every run: phases only move forward, and the session key is fixed once the key exchange is over |
| PeerLife.ClientFollows | src/proudnet/server.cpp:73-96 | over every run: a client holding the key reads exactly the payloads sent encrypted, in order, and its serial keeps pace |
| Conversation.HandshakeAgrees | src/proudnet/server.cpp:230-253 | after a client announces a key, both sides hold the same session key |
| Conversation.AdmittedExactly | src/proudnet/server.cpp:255-292 | a well-formed request is admitted exactly when it names the protocol version |
| Conversation.HearSealed | src/proudnet/server.cpp:294-336 | of sealed messages exactly those in turn lead to calls |
| Conversation.EverythingIsHeard | src/proudnet/server.cpp:125-336 | however a client's payloads are cut into reads, whatever callbacks do and the server sends meanwhile: while the connection is open exactly the calls in the payloads that have arrived reach the game and the core, in order, and if it is closed on the way a prefix of them |
| Conversation.ClosedStep | src/proudnet/server.cpp:53-336 | nothing that arrives or is done moves a closed connection or reaches the game |
| Conversation.WelcomeRead | src/proudnet/server.cpp:275-283 | an admitted client reads its own host id, the server instance and its address from the answer |
| Conversation.WholeSession | src/proudnet/server.cpp:125-336 | from the first byte, the stream cut anywhere and anything happening in between: after the key announcement the client can read the session key from the answer, after the request it is admitted, and then exactly what it says is heard; if the connection is closed on the way, a prefix |
| PeerEffects.RmiLeadsTo | src/proudnet/server.cpp:324-336 | an RMI leads to one call with its number and parameters, to the core for 64001 to 64019 and to the game for any other number |
| PeerEffects.OthersLeadTo | src/proudnet/server.cpp:194-228 | any other message goes to the core as it is, except those of the handshake and envelopes |
| PeerEffects.ShortLeadsNowhere | src/proudnet/server.cpp:324-326 | an RMI too short for its number, and an empty message, lead to nothing |
| PeerEffects.RmisAreHeard | src/proudnet/server.cpp:125-336 | a client that calls by number: exactly the calls outside 64001..64019 reach the game, in order with their parameters, and those inside the core, as far as they have arrived; the first of them if the connection is closed on the way |
| PeerEffects.SessionRmisAreHeard | src/proudnet/server.cpp:125-336 | the same from the first byte of a session |
| PeerEffects.SendsExactly | src/proudnet/server.cpp:73-96 | a closed connection sends nothing; an open one sends one message, sealed with the serial due if asked for and there is a key, and otherwise the payload as it is |
| PeerEffects.HintComesFirst | src/proudnet/server.cpp:45-51 | the first thing on a connection is the hint |
| PeerEffects.KeyIsDrawn | src/proudnet/server.cpp:243-246 | the session key is what was drawn, and so is the padding |
| PeerEffects.BadKeyCloses | src/proudnet/server.cpp:230-241 | a blob that is no key closes the connection with nothing sent |
| PeerEffects.ShortKeyThrows | src/proudnet/server.cpp:243-250 | a key too short to wrap the session key in leaves the phase, with the key already drawn |
| PeerEffects.CutKeyIgnored | src/proudnet/server.cpp:230-234 | a public key cut short is not looked at |
| PeerEffects.CutRequestIgnored | src/proudnet/server.cpp:255-260 | nor is a connection request without the whole of its two versions |
| PeerEffects.MismatchIsTold | src/proudnet/server.cpp:262-269 | a request for another version is told so, and the connection closed |
| PeerEffects.AdmissionInOrder | src/proudnet/server.cpp:274-291 | an admitted client is welcomed, told that the detector is off, and then handed to the game |
| PeerEffects.OutOfTurnIgnored | src/proudnet/server.cpp:201-209 | messages of the handshake out of turn do nothing |
| PeerEffects.NestedIgnored | src/proudnet/server.cpp:211-215 | an envelope inside an envelope is ignored |
| PeerEffects.MalformedCloses | src/proudnet/server.cpp:139-151 | a malformed frame closes the connection, whatever came before it |
| PeerEffects.FailureCloses | src/proudnet/server.cpp:128-133 | so does a failure of the socket |
| PeerServer.Connection.SendPayload | src/proudnet/server.cpp:73-96 | the object seals and counts as specified |
| PeerServer.Connection.Shut | src/proudnet/server.cpp:53-69 | the object closes as specified, re-entry included |
| PeerServer.Connection.ReceivePublicKey | src/proudnet/server.cpp:230-253 | each way out: unreadable, bad key, key too short (which throws with the session key already set), success |
| PeerServer.Connection.ReceiveRequest | src/proudnet/server.cpp:255-292 | each way out: unreadable, wrong version, success with its messages in order |
| PeerServer.Connection.ReceiveEncrypted | src/proudnet/server.cpp:294-322 | opens, drops or throws as specified, moving the serial only on success |
| PeerServer.Connection.ProcessPayload | src/proudnet/server.cpp:194-228 | the dispatch by message type and phase; an envelope inside an envelope is ignored |
| PeerServer.Connection.OnRead | src/proudnet/server.cpp:125-169 | the read loop is the step the run theorems are about |
| Messenger.FriendStep | src/messenger/messenger_server.cpp:434-507 | friendship changes by accepting a waiting request and by deletion, by nothing else |
| Messenger.PendingStep | src/messenger/messenger_server.cpp:434-487 | a request waits from being made until answered or until the session it waits on ends |
| Messenger.FriendsExactly | src/messenger/messenger_server.cpp:434-507 | over every run: two are friends exactly when one accepted the other's waiting request and neither deleted since |
| Messenger.PendingExactly | src/messenger/messenger_server.cpp:434-487 | over every run: a request waits exactly when it was made and not settled since |
| Messenger.FriendshipIsMutual | src/messenger/messenger_server.cpp:468-507 | over every run friendship is symmetric and irreflexive |
| Messenger.FriendsAgreed | src/messenger/messenger_server.cpp:434-507 | over every run: behind each friendship stand a request by one and the acceptance of that request by the other, and no deletion after the acceptance |
| Messenger.DeletionFinalExactly | src/messenger/messenger_server.cpp:498-507 | a deletion cannot be undone without a new request exactly when no request between the two was waiting |
| Messenger.CrossedRequestsOutliveDeletion | src/messenger/messenger_server.cpp:468-507 | a run in which a leftover request restores a deleted friendship |
| MessengerServer.Server.FindOnline | src/messenger/messenger_server.cpp:107-113 | the loop finds the first session of that name in host order |
| MessengerServer.Server.AddFriend | src/messenger/messenger_server.cpp:434-466 | the object's request is the step the run theorems are about |
| MessengerServer.Server.AnswerFriend | src/messenger/messenger_server.cpp:468-477 | likewise answering |
| MessengerServer.Server.DeleteFriend | src/messenger/messenger_server.cpp:498-501 | likewise deleting |
| MessengerServer.Server.OnLogon | src/messenger/messenger_server.cpp:374-381 | likewise logging on |

## Left out

- Sockets, the accept loop, timers, write completion and logging: reads are arbitrary chunks, sends are entries
  of a log, failures and timeouts are closes that may happen at any moment.
- Random numbers: session keys, padding and GUIDs are arguments; padding bytes are 1..255.
- Number theory of RSA: that some d undoes e is a hypothesis.
- `gm_kick` naming a caller that is alone in its room and not in the last slot: the source goes on reading a room it
  has released (src/game/game_server.cpp:707-709), so there is no outcome to model.
- Creating a room when all 65535 numbers are taken: the source never comes back from the search, so there is no
  outcome to model.
- Ready and playing flags in client views: `goto_wait_room` changes both without telling anyone, so the views
  proved exact are seats, closed slots and master.
- Room settings, teams, avatars, items, chat, rankings, missions and scores: fields written and forwarded.
- Result codes and texts of the answers that do not concern rooms: they are one message, `Answer`.
- Contents of most RMI parameter lists: a request arrives parsed; byte layouts are modelled for room_info, avatar_info
  and the P2P notices only, so the step from bytes to seats and master is not made.
- Relaying reliable frames: one send per destination, with nothing beyond it.
- What a callback throws: it is cut short, which is one of the reactions it may have; the leave callback is
  supposed not to throw.
- The messenger's notifications, whispers, mail, clans and its online table under repeated logon: friendships
  and requests only.
- MessengerServer.Server.OnLogon: whether closing an older session of the user removed its entry depends on the state
  of that connection, which the messenger model does not hold; it is an argument, and the theorems hold for both.
- PeerLife.ClientFollows: supposes that nothing sent in the open begins with an envelope's type, as nothing the
  server builds does; a client could not tell such a message from an envelope.
- Wire.Reader.ReadString: reports an underflow for a UTF-16 length beyond the message, where the source may fail
  earlier to allocate the string; both are exceptions the read loop catches alike, at the same offset.
- Creation of an empty friend set by looking it up: it cannot be observed.
- Session server, account file, configuration and floating-point keepalive fields: a login is an argument that
  names the user or not.
- Records.WriteFields: walks a table of fields where the source spells out one call per field.
- Records.ReadFields: walks a table of fields where the source spells out one call per field.
