# TorrSyncPlayer: a verified model of its rooms, its download window, its torrent service and its memory pool

TorrSyncPlayer lets people watch a torrent together. There is no server for the room: every
participant runs a driver (`frontend/internal/rtc/room.go`) over a mesh of streams
(`mesh.go`), and every rule that must give one answer everywhere compares peer identifiers.
Beside it run a backend that streams torrents (`backend/internal/torrent/service.go`), steers the
download around the playhead (`backend/internal/buffer/service.go`) and keeps pieces in memory
(`backend/internal/storage/memory.go`).

`dafny verify dfyconfig.toml` checks everything. The objects whose methods update fields in the
program are classes here (`Room`, `Mesh`, `Window`, `TorrentBuffer`, `Service`, `Piece`, `Pool`,
`Provider`); each method is proved against a function on values, and the theorems about whole runs,
several participants or several threads are about those functions. The pool and its providers carry
the memory that all threads share as ghost state: a call, together with what rival threads do
between its load and its swap, is a run of the steps of `charging.dfy`.

| file | what it holds |
|---|---|
| `wrappers.dfy`, `text.dfy`, `peer_order.dfy`, `finite_sums.dfy` | options and results; splitting, trimming and numbers in strings; the order on identifiers, sorting, the least of a set; sums over a map |
| `protocol.dfy` | messages, whom to follow, who takes over |
| `room_model.dfy`, `room_driver.dfy` | one room: what each message does, as a step and as the object that does it in place |
| `room_runs.dfy` | any run of one room: refusal, play state, seeks, the two role flags |
| `room_effects.dfy` | any run of one room: when it announces itself, what its participant is told, what its roster holds |
| `takeover.dfy` | all rooms together, any interleaving of departures and announcements |
| `join_transfer.dfy`, `answer_race.dfy` | what a newcomer knows after hearing the host; the host's answer against its own commands |
| `mesh_growth.dfy` | the room's network growing from a star into a full mesh, and falling silent |
| `mesh_streams.dfy`, `dial_race.dfy`, `dial_flights.dfy` | one node's streams; two nodes that dial each other at once; who may be dialled, step by step |
| `invites.dfy` | the invite code's printer and parser |
| `handshake.dfy` | the admission handshake and the line reader behind it |
| `playback.dfy`, `sync_race.dfy` | the host's stop and release for buffering, whole and step by step; the follower's return |
| `mirroring.dfy`, `heartbeat.dfy` | what the loop around the player tells the room over whole runs, and where a follower that hears it ends; how far its broadcasts lag |
| `buffer_window.dfy` | seconds to bytes, the window, piece priorities, how much is buffered |
| `torrent_library.dfy`, `torrent_access.dfy` | torrents, owners, selections and sources; who is answered what, read from the log of requests |
| `torrent_service.dfy`, `disk_race.dfy` | the service as an object; saving, restarting; saves that overlap |
| `stream_drain.dfy` | removing a torrent while it is streamed |
| `piece_memory.dfy`, `charging.dfy` | the bytes of a piece; the shared pool under contention |

## Where the code and its description part

These are proved about the code as it is.

- `v0:` invites: a code with version 0 is accepted, and the invite it yields prints to a code that
  does not parse back to it (`Invites.ParseThenPrint`, `Invites.ZeroIsAccepted`). A code printed
  without a version is misread exactly when its community looks like a version and an address has a
  colon (`Invites.UnversionedIsLegacy`); the comment at `room.go:615-617` says that case is excluded.
  What is read instead is `Invites.LookalikeIsReadAsVersion`; it can be another room altogether
  (`Invites.TwoInvitesOneCode`).
- A refused host stays the host a room follows, and even its departure is not heard
  (`RoomRuns.RefusedHostIsUnheard`). It is displaced exactly by an admitted greeting that claims the
  role or by the least peer in view announcing itself; until then only the local participant moves
  the play state (`RoomRuns.RefusedHostStays`, `RoomRuns.RefusedHostIsDisplaced`).
- A host that admits a greeting claiming the role follows the newcomer and goes on holding the role
  (`RoomRuns.FlagsAgreeExactlyUndisputed`, `RoomRuns.ClaimSplitsTheFlags`).
- A host that took over greets without claiming the role. In a room without a film a newcomer then
  follows it exactly if that greeting was heard first and the host was the least peer in view when it
  announced itself (`JoinTransfer.JoinTransfersTheRoom`, `JoinTransfer.TakeoverHostNeedsAFilm`).
- The comment at `room.go:68` says that the participant is told when the host role moves. A host learned
  from a film is not shown, and a takeover by departure marks nobody in the roster as the host
  (`RoomEffects.ShowsExactly`, `RoomEffects.MarksHoldTheLastWord`).
- A follower's loop remembers its own player, so a peer that takes the role over tells the room only what
  changes afterwards. If its player was not where the room was, the room does not learn it
  (`Mirroring.NewHostAgreesExactly`).
- Positions are counted from the start of the selected file, and pieces from the start of the torrent. For
  a file further in than its window and 21 pieces, the piece being played is not fetched at all
  (`BufferWindow.LaterFilesAreMissed`).
- Stopping and releasing the room is several steps under several locks, begun on two threads. Two syncs
  that both saw the room running end with a pause nobody owns, and the release then leaves the player
  paused although the user never paused it (`SyncRace.TwoStopsDisownThePause`). A release overtaken by
  the report of the own stall runs the room while somebody waits (`SyncRace.ReleaseOvertakesAReport`). A
  press in the middle of a stop is taken back by its release (`SyncRace.PressDuringAStop`). Where no sync
  begins before the last one is over, the promise holds (`SyncRace.SerialSyncsRestoreTheChoice`,
  `SyncRace.SteadySyncMatches`).
- A host's command that is broadcast while an answer to a greeting has read the old play state leaves the
  newcomer with the old one (`AnswerRace.OvertakenAnswerIsStale`).
- The comment at `mesh.go:635-636` says that a second dial of a peer is not started. The search for the
  invited peer can overtake a hint between its check and its mark, and then it is
  (`DialFlights.SearchOvertakesAHint`, `DialFlights.OneFlightExactlyIfMarksAreFresh`).
- The permission for a stream is checked before the torrent is looked up, and nobody's torrent is
  anybody's to read: an add in between serves a stranger (`TorrentLibrary.StrangerIsServed`,
  `TorrentLibrary.StaleVerdictNeedsAnAdd`).
- Adding a torrent again makes whoever does it its owner, who may then remove it
  (`TorrentLibrary.OwnerStaysExactly`, `TorrentLibrary.AddedAgainIsTakenOver`).
- Two saves that overlap can leave the disk without a torrent of the library
  (`DiskRace.OverlappingSavesLoseATorrent`).
- A piece the pool refuses is handed out all the same: what is written to it is found by no later read,
  and its bytes are allocated beyond the capacity (`PieceMemory.LastWriteIsSeenExactlyIfKept`,
  `PieceMemory.AllocationIsUnbounded`).
- When the only member the room waits for leaves or greets anew, the room stays stopped for nobody
  until the next report (`Playback.StopOutlivesItsCause`, `Playback.LeaverLeavesTheRoomStopped`).
- A position more than one piece beyond the torrent, which the handler lets through
  (`backend/internal/api/handlers_torrent.go:481-487`), makes the priority loops name a piece that
  does not exist (`BufferWindow.LoopsNameExistingPieces`).
- A press of the user while the room is stopped unbalances the stop and its release, except when it
  repeats a pause (`Playback.PressKeepsBracketExactly`).
- The limit on torrents is checked before the metadata is fetched and not again afterwards: adds in
  flight together can all pass it (`TorrentLibrary.LimitCanBeOutrun`).
- A restart does not bring the sources back. Once the restarted service has saved, as closing it does,
  the second restart forgets what the first one restored (`TorrentService.SecondRestartForgets`); after a
  crash before any save the old registry still brings it back (`TorrentService.CrashKeepsTheOldRegistry`).
- A removal that gives up waiting, or whose torrent is added again before the drop, drops the torrent
  under its reader (`StreamDrain.GivingUpDropsUnderAReader`, `StreamDrain.ReaddingDropsUnderAReader`).
- Closing a provider twice gives its bytes back twice (`Charging.ChargingIsConserved`,
  `Charging.SecondCloseGivesBackTwice`).

## Model

| member | source | states |
|---|---|---|
| PeerOrder.LeqAntisymmetric | frontend/internal/rtc/mesh.go:764-771 | two peers never each rank before the other, so the rule on initiators has one answer |
| Protocol.TakeoverHost | frontend/internal/rtc/protocol.go:275-282 | the name returned is in the list and not larger than any other; empty for an empty list |
| Protocol.TakeoverHostDependsOnlyOnTheSet | frontend/internal/rtc/protocol.go:271-282 | everybody who sees the same peers names the same host, in whatever order or how often they are listed |
| RoomModel.AddressBookLists | frontend/internal/rtc/room.go:377-386 | the book lists exactly the members with addresses, once each, ascending, each with its own addresses |
| RoomModel.FreshOfSelects | frontend/internal/rtc/room.go:391-412 | a hint names exactly the listed peers that are neither this one nor known and that say where they are |
| RoomModel.StepMovesRole | frontend/internal/rtc/room.go:252-514 | the whole effect of any message on the roster, on whom the room follows and on whether it holds the role |
| RoomModel.StepRefuses | frontend/internal/rtc/room.go:296-324 | only a greeting of an unknown version touches the refusals, and it records that version |
| RoomDriver.Room.constructor | frontend/internal/rtc/room.go:112-130 | a fresh room is empty; a host starts out following itself |
| RoomDriver.Room.AnyoneBuffering | frontend/internal/rtc/room.go:177-186 | true exactly when some roster member reports a stall, in whatever order the roster is walked |
| RoomDriver.Room.FindTakeoverWinner | frontend/internal/rtc/room.go:505-514 | the least of the roster and this peer, in whatever order the roster is listed |
| RoomDriver.Room.CollectAddressBook | frontend/internal/rtc/room.go:377-386 | collecting in any order and sorting gives the one ascending address book |
| RoomDriver.SortedBookIsTheBook | frontend/internal/rtc/room.go:377-386 | any collection of the reachable members sorts to the same book |
| RoomDriver.Room.Play | frontend/internal/rtc/room.go:216-219 | remembers and broadcasts the start |
| RoomDriver.Room.PauseRoom | frontend/internal/rtc/room.go:222-225 | remembers and broadcasts the stop |
| RoomDriver.Room.AnnounceMagnet | frontend/internal/rtc/room.go:244-250 | remembers and broadcasts the film |
| RoomDriver.Room.Handle | frontend/internal/rtc/room.go:252-294 | the in-place handler makes exactly the step of the value model: whole new state, and everything sent and shown, in order |
| RoomDriver.Room.HandleHello | frontend/internal/rtc/room.go:296-363 | refusal, admission, role claim and the host's answer, with their effects in order |
| RoomDriver.Room.HandleFilm | frontend/internal/rtc/room.go:414-431 | the magnet is kept from anybody and shown only from the host |
| RoomDriver.Room.HandleHost | frontend/internal/rtc/room.go:433-466 | an announcement counts from a peer naming itself only if it wins the takeover, and from the host otherwise |
| RoomDriver.Room.HandleBye | frontend/internal/rtc/room.go:468-503 | the leaver goes; if it was the host, the winner among those left takes over, and announces itself if it is this peer |
| RoomDriver.Room.HandlePeers | frontend/internal/rtc/room.go:391-412 | the loop hints exactly the fresh entries, in book order |
| RoomRuns.RefusedExactly | frontend/internal/rtc/room.go:296-324 | after any run the refused are exactly those refused before and those that ever greeted with an unknown version |
| RoomRuns.RefusalIsNonInterference | frontend/internal/rtc/room.go:252-259 | erasing everything refused peers say later changes nothing the room sends, shows or remembers, but the version noted for them |
| RoomRuns.PlayStateIsTheLastCommand | frontend/internal/rtc/room.go:160-166 | in every run the play state is the last local command or pause of the host of that moment |
| RoomRuns.SeeksRelayedExactly | frontend/internal/rtc/room.go:272-277 | the seeks shown are exactly those of the host of each moment, in order |
| RoomRuns.FollowingSelfIsHosting | frontend/internal/rtc/room.go:451-497 | in every run a room that follows itself holds the role |
| RoomRuns.ClaimSplitsTheFlags | frontend/internal/rtc/room.go:326-331 | at a hosting room one such greeting does split them |
| RoomRuns.RefusedHostIsUnheard | frontend/internal/rtc/room.go:252-259 | nothing but a greeting of a refused host is heard, its departure included |
| RoomRuns.RefusedHostStays | frontend/internal/rtc/room.go:252-324 | a room whose host is refused follows it at every moment of a run if and only if no admitted claim and no self-announcement of the least peer in view comes; while it does, the play state is the last local press and no seek is shown |
| RoomRuns.RefusedHostIsDisplaced | frontend/internal/rtc/room.go:433-466 | such an announcement takes the room over, and its sender is obeyed at once |
| RoomRuns.FlagsAgreeExactlyUndisputed | frontend/internal/rtc/room.go:326-331 | the two role flags agree at every moment of a run if and only if no host-claiming greeting is admitted while the role is held |
| RoomEffects.AnnouncementsAreExact | frontend/internal/rtc/room.go:468-503 | in every run a room announces a host, itself each time, exactly at the departure of the followed host that leaves it the least of those who stay, and in the answer to an admitted greeting while it holds the role |
| RoomEffects.SendsExactly | frontend/internal/rtc/room.go:216-250 | in every run a room sends exactly its participant's commands, the host's answers to the greetings it admits and the announcement of its own takeover, in order; nothing is passed on |
| RoomEffects.TellsExactly | frontend/internal/rtc/room.go:252-294 | in every run the participant is shown exactly the pauses of the host of each moment, its films or that of the first to name one, and everybody's stalls, in order |
| RoomEffects.ShowsExactly | frontend/internal/rtc/room.go:516-536 | the roster and the host are shown exactly after admitted greetings, believed announcements and departures, as they are then; a film shows no host |
| RoomEffects.EachRefusalIsShownOnce | frontend/internal/rtc/room.go:296-324 | a refusal is shown once for each peer that is ever refused |
| RoomEffects.ChangesAreShown | frontend/internal/rtc/room.go:252-536 | no change of the roster but a stall, and none of the host but by a film, goes unshown |
| RoomEffects.GreetingsAreAdmittedExactly | frontend/internal/rtc/room.go:296-327 | a greeting gets its peer into the roster if and only if the peer was never refused and speaks version 2 at most; no version means version 1 |
| RoomEffects.RosterHoldsTheLastGreeting | frontend/internal/rtc/room.go:326-331 | after any run a roster entry says what its peer's last admitted greeting said |
| RoomEffects.StallsHoldTheLastReport | frontend/internal/rtc/room.go:278-286 | it is marked as stalled exactly if the last report since then says so |
| RoomEffects.MarksHoldTheLastWord | frontend/internal/rtc/room.go:433-461 | it is marked as the host exactly if the last greeting or believed announcement says so |
| RoomEffects.BelievedHostIsMarked | frontend/internal/rtc/room.go:451-461 | a believed announcement marks the host it names and nobody else |
| Takeover.GrownRoomIsSettled | frontend/internal/rtc/room.go:326-363 | however a room grew by joins and deliveries, once nothing is on the wire all members agree as the runs below start out |
| Takeover.EveryRoomCanSettle | frontend/internal/rtc/room.go:296-363 | any members reach that agreement under any host among them, from fresh rooms by joins and deliveries alone |
| Takeover.SoundStep | frontend/internal/rtc/room.go:433-503 | a bye, a self-announcement or chatter leaves a member following the first host or the least it sees, and believing nobody who is gone |
| Takeover.TakeoverConverges | frontend/internal/rtc/room.go:433-514 | under every interleaving and repetition, survivors that processed the same departures name one host and exactly it holds the role |
| Takeover.TakeoversAreAnnounced | frontend/internal/rtc/room.go:468-503 | in every such run each living member that holds the role and is not the first host has announced itself |
| Takeover.AgreementIsReachable | frontend/internal/rtc/room.go:468-514 | from every reachable state, hearing the outstanding byes and nothing else reaches that agreement |
| JoinTransfer.NewcomerKnows | frontend/internal/rtc/room.go:252-294 | whatever ordinary members say in between, the newcomer's host, film and play state are what the host's messages taught it, an announcement counting only while the host is the least peer in view |
| JoinTransfer.JoinTransfersTheRoom | frontend/internal/rtc/room.go:296-363 | a newcomer that hears the greeting anywhere in the host's answer has the host's film; it follows the host if and only if there is a film, or the greeting claims the role, or it came first and the host was the least in view when it announced itself; it has the play state if and only if it followed by then |
| AnswerRace.AnswersStayCurrent | frontend/internal/rtc/room.go:343-362 | reading and sending an answer, remembering and broadcasting a command, in any order: unless a broadcast overtakes an answer that read another value, the newcomer's last word is the host's whenever nothing is left to send |
| AnswerRace.OvertakenAnswerIsStale | frontend/internal/rtc/room.go:216-225 | a command between the reading and the sending of an answer leaves the newcomer with the old value |
| JoinTransfer.TakeoverHostNeedsAFilm | frontend/internal/rtc/room.go:414-466 | hearing nobody but a host that claims nothing and has no film, the newcomer follows it if and only if the greeting came first and the host's identifier is not the larger one |
| MeshGrowth.StarGrowsIntoAMesh | frontend/internal/rtc/room.go:341-412 | for any joins and any order of delivery, nobody is linked to itself, and once nothing is on the wire everybody is linked to and knows everybody |
| MeshGrowth.DeliveryProgress | frontend/internal/rtc/mesh.go:284-321 | every delivery brings the room nearer to silence: fewer unlinked pairs, or fewer packets for the host, or fewer packets |
| MeshGrowth.WireDrains | frontend/internal/rtc/room.go:341-412 | from every reachable state delivering ends, in a full mesh of the same members |
| MeshGrowth.EveryRoomCanGrow | frontend/internal/rtc/room.go:341-412 | any group of peers can join any host among them and fall silent, fully connected |
| MeshStreams.Mesh.Landed | frontend/internal/rtc/mesh.go:306-311 | a dial that ends, however it ends, frees its peer and nothing else |
| DialFlights.OneFlightExactlyIfMarksAreFresh | frontend/internal/rtc/mesh.go:296-311 | with the check and the mark of a hint as two steps and the search beside them: no peer has two dials under way at any moment of a run if and only if every hint still finds its peer unmarked when it marks it |
| DialFlights.NoOverlapNoDoubleFlight | frontend/internal/rtc/mesh.go:676-719 | which is so in every run in which the search never looks for a peer between a hint's check and its mark |
| DialFlights.SearchOvertakesAHint | frontend/internal/rtc/mesh.go:676-719 | the failing case at an input: two dials of one peer, and the first to land frees it under the second |
| DialFlights.SearchDialsWhoIsMissing | frontend/internal/rtc/mesh.go:676-719 | in every run the search dials a peer if and only if its connection is lost or never was and nobody dials it |
| MeshStreams.OneFlightPerPeer | frontend/internal/rtc/mesh.go:284-321 | a hint dials exactly the dialable peers neither connected nor in flight, each once |
| MeshStreams.Mesh.AddPeer | frontend/internal/rtc/mesh.go:764-795 | a stream loses to one whose initiator is not larger; otherwise it replaces and closes it, is read and greeted |
| MeshStreams.Mesh.EndReadLoop | frontend/internal/rtc/mesh.go:803-831 | only the stream that is still the entry removes it and announces the departure |
| MeshStreams.EveryConnectionEndsOnce | frontend/internal/rtc/mesh.go:764-831 | however streams come, replace each other and end, departures announced and connections that remain are as many as connections that began |
| MeshStreams.ConnectionsAreRead | frontend/internal/rtc/mesh.go:764-795 | in every such run each connected peer was greeted and is being read |
| MeshStreams.OneOpenStreamPerPeer | frontend/internal/rtc/mesh.go:764-831 | and whatever else is still being read was closed here |
| MeshStreams.Mesh.DialHint | frontend/internal/rtc/mesh.go:284-321 | left alone, the loop starts exactly those dials and marks them in flight |
| DialRace.SmallerInitiatorSurvives | frontend/internal/rtc/mesh.go:749-795 | in every interleaving at both ends the smaller initiator's stream is closed by neither, and once delivered stays the entry |
| DialRace.LargerInitiatorIsClosed | frontend/internal/rtc/mesh.go:764-795 | once both streams arrived at one end, the other one is closed by one of the ends |
| DialRace.NoDepartureAfterwards | frontend/internal/rtc/mesh.go:803-831 | once an end has that stream, nothing later announces the other end's departure there |
| DialRace.RaceConverges | frontend/internal/rtc/mesh.go:749-832 | when nothing is left to happen, wherever the losing stream arrived or not, both ends hold the same stream, the loser is read nowhere, and each heard last that the other is there |
| DialRace.PresentIsInTheRoster | frontend/internal/rtc/mesh.go:812-831 | a room that reads those messages has the peer in its roster |
| Text.SplitUndoesJoin | frontend/internal/rtc/room.go:584 | splitting what was joined gives the parts back, when none holds the separator |
| Text.TrimIs | frontend/internal/rtc/room.go:611-611 | what is left is the one part of the original that starts and ends without white space and has only white space around it |
| Invites.ParseInviteCode | frontend/internal/rtc/room.go:610-653 | the parser with its loops gives the same invite or the same error as the definition the round trips are about |
| Invites.CodeIsReadExactly | frontend/internal/rtc/room.go:610-627 | for every code: read as one of the version it names, or as a legacy one exactly when it names none; a newer version is refused first |
| Invites.VersionIsReadExactly | frontend/internal/rtc/room.go:656-675 | a version is a v, a machine number, a colon and a body of four parts, and nothing else is |
| Invites.BodyIsReadExactly | frontend/internal/rtc/room.go:629-653 | what becomes of any body of four parts: which error when, and otherwise its parts and all its addresses in order |
| Invites.FewPartsHaveNoAddress | frontend/internal/rtc/room.go:625-631 | any other body is refused as having no address, unless its version is newer |
| Invites.AddrsAreAllOrNone | frontend/internal/rtc/room.go:640-648 | the addresses are the pieces that say something, in order, if all are valid; otherwise the first bad one is named |
| Invites.PrintThenParse | frontend/internal/rtc/room.go:583-653 | every well-formed invite of version 1 or 2 comes back from its code, colons in addresses included |
| Invites.NewerIsRefused | frontend/internal/rtc/room.go:625-627 | a code of any newer version is refused as such |
| Invites.ParseThenPrint | frontend/internal/rtc/room.go:583-653 | every accepted code gives a well-formed invite whose re-encoding parses to it if and only if its version is at least 1 |
| Invites.ZeroIsAccepted | frontend/internal/rtc/room.go:656-675 | every room has such a code: `v0:` in front of its parts is read as version 0, and the invite's own code never gives that back |
| Invites.UnversionedIsLegacy | frontend/internal/rtc/room.go:591-623 | an unversioned code is read as the legacy invite it is if and only if its community does not look like a version or no address has a colon |
| Invites.LookalikeIsReadAsVersion | frontend/internal/rtc/room.go:610-653 | what the misread code gives, for any addresses: the rest of it read as a code of that version, refused if that is a newer one |
| Invites.TwoInvitesOneCode | frontend/internal/rtc/room.go:583-623 | two different well-formed rooms whose codes coincide, one of them unversioned: its guest is sent to the other |
| Invites.MistakenPrefixNeverReturns | frontend/internal/rtc/room.go:615-623 | a body whose start is mistaken for a version is never read as the invite it was |
| Handshake.ReadSome | frontend/internal/rtc/p2p.go:599-605 | a read through any layers of buffering loses, repeats and reorders no byte |
| Handshake.ReadLine | frontend/internal/rtc/p2p.go:549-558 | however the bytes are cut, the line is the first one and everything after it is still to come |
| Handshake.ServeHandshake | frontend/internal/rtc/p2p.go:539-583 | admits if and only if the first line, without white space around it, is the proof of the challenge and no write, deadline or queue failed, hands on exactly what follows it, and what it said |
| Handshake.ProofIsTheFirstLine | frontend/internal/rtc/p2p.go:559-568 | a stream proves the challenge if and only if its first line, without the white space around it, is the word, a space and the keyed hash of the challenge in hexadecimal |
| Handshake.ProvePassword | frontend/internal/rtc/p2p.go:611-644 | succeeds if and only if the first line is a challenge, the second the verdict and no write or deadline failed, hands on exactly what follows, and what it said |
| Handshake.ChallengeIsTheFirstLine | frontend/internal/rtc/p2p.go:618-630 | a stream challenges if and only if its first line is the word, a space and 32 bytes in hexadecimal |
| Handshake.VerdictIsTheFirstLine | frontend/internal/rtc/p2p.go:637-643 | and admits if and only if its next line is the verdict |
| Handshake.ReadLoop | frontend/internal/rtc/mesh.go:834-854 | every complete line of an admitted stream reaches the parser, in order |
| Handshake.AdmitAndRead | frontend/internal/rtc/p2p.go:539-605 | on the admitting side, through both readers, exactly the lines after the proof reach the parser |
| Handshake.DialAndRead | frontend/internal/rtc/p2p.go:607-644 | on the dialling side exactly the lines after the verdict do |
| Handshake.SameKeyMeets | frontend/internal/rtc/p2p.go:539-644 | two peers with one key admit each other and are left with exactly what the other sends next |
| Handshake.OtherKeyIsRefused | frontend/internal/rtc/p2p.go:564-569 | a peer whose key proves something else is not admitted |
| Playback.Window.SyncTheRoomStop | frontend/internal/ui/window.go:927-957 | left alone, a host's sync stops or releases for whoever is behind, the local player included |
| SyncRace.AloneIsSynced | frontend/internal/ui/window.go:927-1009 | the steps of a sync, when nothing comes in between, make exactly that whole step |
| SyncRace.SerialSyncsRestoreTheChoice | frontend/internal/ui/window.go:927-1009 | step by step, in every run in which no sync begins between another's reading and its last write, with messages and stalls at any moment: whenever no sync is under way the player is paused exactly when the user paused it or the room is stopped, and the pause is owned exactly when the room is stopped and the user had not paused |
| SyncRace.SteadySyncMatches | frontend/internal/ui/window.go:927-957 | a sync that no other overlaps and during which nobody's stall changes ends with the room stopped exactly when somebody waits |
| SyncRace.TwoStopsDisownThePause | frontend/internal/ui/window.go:964-990 | two overlapping stops leave the pause unowned, and the release leaves the player paused |
| SyncRace.ReleaseOvertakesAReport | frontend/internal/ui/window.go:927-957 | a release overtaken by a report runs the room while somebody waits |
| SyncRace.PressDuringAStop | frontend/internal/ui/window.go:972-989 | a press between the question and the note of a stop is owned by it and taken back |
| Playback.Window.PauseTheRoom | frontend/internal/ui/window.go:964-990 | only a player that answers is paused, and the pause is owned only if the user had not paused |
| Playback.Window.ResumeTheRoom | frontend/internal/ui/window.go:994-1009 | without a player nothing changes; otherwise the pause is no longer owned, and a player that answers plays |
| Playback.Window.OnMessage | frontend/internal/ui/window.go:690-701 | a stall report that reaches the room is followed by a sync, and a pause of the host that is followed drives the player |
| Playback.Window.WatchTick | frontend/internal/ui/window.go:746-766 | without a player what the loop remembers starts over; with one it is a tick |
| Playback.Window.RoomTick | frontend/internal/ui/window.go:786-837 | one tick: own stall, then play state and position mirrored with what the player said, if it did, when the tick began; and all it sends, in order |
| Playback.Window.ConvergeToRoomState | frontend/internal/ui/window.go:879-904 | a player that answers and disagrees with a known room state is brought to it |
| Playback.ReleaseRestoresTheUsersChoice | frontend/internal/ui/window.go:927-1009 | in every run of a host in which each sync is left alone, with ticks, messages and presses between them: the player is paused exactly when the user paused it or the room is stopped, and the pause is owned exactly when the room is stopped and the user had not paused |
| Playback.SyncKeepsBracketExactly | frontend/internal/ui/window.go:927-1009 | a sync keeps that bracket if and only if the player answers, or nothing changes, or the user had paused |
| Playback.SyncedAfterEveryReport | frontend/internal/ui/window.go:797-808 | right after any report whose sync is left alone the room is stopped exactly when somebody waits, whether the player answers or not |
| Playback.StopOutlivesItsCause | frontend/internal/ui/window.go:927-957 | without a report the stop never moves, and the waiting ends exactly when the only staller leaves or greets anew |
| Playback.LeaverLeavesTheRoomStopped | frontend/internal/ui/window.go:696-701 | after the only staller left, nobody is waited for and the room stays stopped through any run without a report |
| Playback.TickMirrorsThePlayer | frontend/internal/ui/window.go:822-829 | in a run of a host since its loop began: after each tick the room remembers the play state the player had when it began |
| Playback.PressKeepsBracketExactly | frontend/internal/ui/window.go:959-1009 | a press keeps the bracket if and only if the room is not stopped or it repeats the user's pause |
| Playback.FollowerComesBack | frontend/internal/ui/window.go:810-820 | within ten ticks a follower's player is in the room's play state and stays there, whatever is said and whoever stalls meanwhile, as long as that play state is not moved |
| Playback.FollowersPlayerMovesExactly | frontend/internal/ui/window.go:810-820 | a tick moves a follower's player exactly on every tenth, to a play state the room knows; a message exactly when it is a pause of the host that is followed; and only if the player answers |
| Playback.SilentPlayersAreLeftAlone | frontend/internal/ui/window.go:1041-1060 | nobody's player moves without answering |
| Mirroring.TicksTellEveryPause | frontend/internal/ui/window.go:822-829 | in every run of a host the pauses and releases its ticks send are exactly the changes between the answers of its player, in order; without a player the last one is forgotten |
| Mirroring.RoomHearsThePlayer | frontend/internal/ui/window.go:822-829 | after every answered tick the last of them is the state the player was in when the tick began, and while there is a player no two in a row are the same |
| Mirroring.TicksTellEveryStall | frontend/internal/ui/window.go:797-808 | in every run of anybody the stalls sent are exactly the changes between the readings |
| Mirroring.RoomHearsTheStall | frontend/internal/ui/window.go:797-808 | after every reading the last of them is that reading, and while there is a player no two in a row are the same |
| Mirroring.TicksTellEverySeek | frontend/internal/ui/window.go:786-837 | in every run of anybody, through changes of role and of the player, the positions sent are exactly those of hosting ticks that moved more than two seconds or are every tenth beat, never a first one |
| Mirroring.FollowersTellOnlyStalls | frontend/internal/ui/window.go:810-820 | a follower's ticks send nothing but its stalls |
| Mirroring.LoyalRoomHoldsTheLastWord | frontend/internal/rtc/room.go:265-271 | through any run in which a follower stays with its host, its room holds the last pause or release it heard from it |
| Mirroring.FollowerEndsWithTheHost | frontend/internal/ui/window.go:786-837 | a follower that heard what a host's run told, among anything else, is ten answered ticks later in the state the host's player was in when the last tick began |
| Mirroring.NewHostAgreesExactly | frontend/internal/ui/window.go:810-829 | after a takeover the room learns the new host's play state if and only if the player moved since its last tick as a follower, or the room had it already |
| Heartbeat.BroadcastsExactlyWhenDue | frontend/internal/ui/window.go:830-836 | a tick of any run broadcasts if and only if the rule applied to the previous reading says so |
| Heartbeat.SteadyPlaybackIsSilent | frontend/internal/ui/window.go:863-871 | after the first sample a tick sends its position if and only if it moved more than two seconds either way or is a tenth one |
| Heartbeat.JumpsTravelAtOnce | frontend/internal/ui/window.go:863-871 | a jump over two seconds is sent on its own tick |
| Heartbeat.TenTicksBroadcast | frontend/internal/ui/window.go:853-871 | any ten consecutive ticks after the first sample contain a broadcast |
| Heartbeat.EveryLaterTickIsNear | frontend/internal/ui/window.go:863-871 | after a first broadcast every later position is at most 18 seconds from the last one sent |
| BufferWindow.BytePositionIsSound | frontend/internal/room/buffer.go:78-88 | reported if and only if position, duration and size are known; monotone in the seconds, and in the file |
| BufferWindow.OffsetIsTheShare | frontend/internal/room/buffer.go:78-88 | the offset is the whole number of bytes in the share of the file that was played: bytes times duration are at most seconds times size and less than one byte short of it; the start is byte 0, the end or later the size |
| BufferWindow.WindowIsSound | backend/internal/buffer/service.go:140-155 | the window ends in the file, and starts before it ends if and only if the position is in the file |
| BufferWindow.WindowIsTheSmaller | backend/internal/buffer/service.go:140-155 | the window is the buffered share in whole bytes or the maximum, whichever is smaller, cut off at the end of the file |
| BufferWindow.ReportedWindowIsSound | frontend/internal/room/buffer.go:105-131 | every position the reporter sends gives a window inside the file |
| BufferWindow.LoopsGiveBandsExactly | backend/internal/buffer/service.go:162-208 | the three loops agree with the per-piece bands if and only if the position is not just behind the end of its own window |
| BufferWindow.LoopsNameExistingPieces | backend/internal/buffer/service.go:173-207 | every piece the loops name exists if and only if the window starts at most one piece beyond the torrent |
| BufferWindow.BandsFallAway | backend/internal/buffer/service.go:183-199 | bands never rise away from the playhead; behind it nothing is wanted, at it the piece is wanted now |
| BufferWindow.BandsByBytes | backend/internal/buffer/service.go:183-199 | the priority of every piece in bytes from the playhead: eleven pieces now, forty high, the rest of the window normal, twenty beyond it read ahead, nothing that was played |
| BufferWindow.PlayheadComesFirst | backend/internal/buffer/service.go:183-199 | the piece the playhead is in exists, is set to now, and nothing before it is wanted |
| BufferWindow.LaterFilesAreMissed | backend/internal/buffer/service.go:162-208 | for a file that starts further into its torrent: exactly when the piece that is really being played comes first, and exactly when it is not fetched |
| BufferWindow.SweptOnce | backend/internal/buffer/service.go:183-207 | the three loops name every index below the total at exactly one place and no other |
| BufferWindow.TorrentBuffer.UpdatePosition | backend/internal/buffer/service.go:130-160 | for any position that is not negative: the window and all priorities are a function of the position alone; inside the file they are the bands, each piece set once; too far out the loops run into a missing piece, exactly when |
| BufferWindow.TorrentBuffer.UpdatePiecePriorities | backend/internal/buffer/service.go:162-208 | what the loops leave at every piece, the order they set them in, and exactly when they run into a missing piece |
| BufferWindow.TorrentBuffer.PeriodicUpdate | backend/internal/buffer/service.go:272-280 | repeating the update changes no priority |
| BufferWindow.TorrentBuffer.GetBufferInfo | backend/internal/buffer/service.go:210-248 | the loop counts the complete pieces the window touches; buffering below 95 percent |
| BufferWindow.BufferedBytesAreBounded | backend/internal/buffer/service.go:219-229 | buffered bytes are less than the window and two pieces |
| BufferWindow.HeldCounts | backend/internal/buffer/service.go:219-224 | what the loop counts is the number of complete pieces in its range |
| BufferWindow.PercentIsTheShare | backend/internal/buffer/service.go:226-246 | percent times window is a hundred times the bytes; the threshold is exact; nothing is enough of an empty window |
| BufferWindow.CompleteWindowIsFull | backend/internal/buffer/service.go:231-247 | with every touched piece complete a nonempty window is at least 100 percent |
| TorrentLibrary.StreamingServesTheLastChoice | backend/internal/torrent/service.go:918-979 | with the permission checked at one moment of any run and the torrent looked up at a later one: the answer is decided by that check and by the requester's own last successful selection since the last removal, read from the log; whoever is served may read by then or somebody else added the torrent in between; selections and sources never outlive their torrents |
| TorrentLibrary.StaleVerdictNeedsAnAdd | backend/internal/torrent/service.go:279-295 | a permission is lost between check and lookup only by somebody else's add of that torrent |
| TorrentLibrary.StrangerIsServed | backend/internal/torrent/service.go:928-943 | such an add does serve a stranger, subtitles and film alike |
| TorrentLibrary.LibraryFollowsTheLog | backend/internal/torrent/service.go:552-557 | started empty, exactly the torrents whose last word in the log is an arrival are live, with that arrival's handle, owner and source |
| TorrentAccess.ReadersAreOwnerAndRoom | backend/internal/torrent/service.go:279-295 | in every run from the start: a user may read a torrent if and only if the log's last arrival of it is their own, or the room shows it to them, or there is none |
| TorrentAccess.StreamsFollowTheLog | backend/internal/torrent/service.go:918-1024 | every answer to a request for a stream or subtitles, from the log alone: the last arrival at the check decides who, the last arrival at the lookup what, the last own choice which file |
| TorrentAccess.ChangesFollowTheLog | backend/internal/torrent/service.go:661-878 | every answer to a selection or a removal, from the log alone |
| TorrentAccess.StrangersNeedTheRoom | backend/internal/torrent/service.go:279-295 | whoever is served, or selects in, what somebody else added is shown it by the room |
| TorrentAccess.GuestIsServed | backend/internal/torrent/service.go:814-979 | a guest to whom the room shows a torrent and who selects one of its files is served that file, for as long as nobody adds or removes the torrent and the guest does not choose again |
| TorrentAccess.ShowingMoreTakesNothingAway | backend/internal/torrent/service.go:279-295 | showing a user more changes no answer but a refusal |
| TorrentAccess.UnownedIsEverybodys | backend/internal/torrent/service.go:279-295 | a live torrent without a known owner is everybody's to read and anybody's to remove, until somebody adds it |
| TorrentLibrary.OnlyOwnersRemove | backend/internal/torrent/service.go:671-694 | an owned torrent that disappears in a run was removed at the request of its owner of that moment |
| TorrentLibrary.OwnerStaysExactly | backend/internal/torrent/service.go:552-557 | the owner is the same at every moment of a run if and only if nobody else adds the torrent and it is not removed |
| TorrentLibrary.AddedAgainIsTakenOver | backend/internal/torrent/service.go:552-694 | whoever adds an owned torrent again owns it and may remove it |
| TorrentLibrary.LimitHoldsUpToFlights | backend/internal/torrent/service.go:532-557 | however adds interleave, the library outgrows the limit by less than the adds ever in flight together |
| TorrentLibrary.LimitCanBeOutrun | backend/internal/torrent/service.go:532-557 | and that bound is met |
| TorrentService.Service.AddMagnet | backend/internal/torrent/service.go:521-584 | which error when, and otherwise the torrent with owner and source, saved |
| TorrentService.Service.AddTorrent | backend/internal/torrent/service.go:591-655 | the same for a file, whose bytes are kept whole up to the size limit and refused beyond it |
| TorrentService.Service.RemoveTorrent | backend/internal/torrent/service.go:661-698 | not found, forbidden to anyone but a known owner, or gone from all four maps and saved |
| TorrentService.Service.SelectFile | backend/internal/torrent/service.go:814-878 | the checks in order, then the caller's own selection and nobody else's |
| TorrentService.Service.ServeFile | backend/internal/torrent/service.go:918-979 | the checks in order, then the selected file of the live handle |
| TorrentLibrary.SubtitlesIgnoreSelections | backend/internal/torrent/service.go:981-1024 | no selection of anybody in a run changes what the permission check says or what a reader of subtitles is served; it is served if and only if the earlier check let the reader in, the torrent is live and the index names one of its files, and then exactly that file |
| TorrentService.Service.SaveRegistry | backend/internal/torrent/service.go:210-261 | left alone, the copying loops leave in the store exactly a snapshot of the library |
| DiskRace.SerialSavesReachTheDisk | backend/internal/torrent/service.go:210-261 | snapshot and the two writes as steps of any number of savers, changes at any moment: unless a snapshot is taken while another save is being written, the disk holds the library of now whenever no save is under way |
| DiskRace.OverlappingSavesLoseATorrent | backend/internal/torrent/service.go:216-258 | two adds whose saves overlap leave one of them off the disk |
| TorrentService.Service.SetPersistence | backend/internal/torrent/service.go:101-170 | owners loaded, exactly the records that come back under their own identifier live again, exactly the others handed back to the backend, in any order of the registry |
| TorrentService.RestartIsExact | backend/internal/torrent/service.go:101-203 | whatever the backend answers: a record comes back if and only if it has a source that is found as the torrent it was saved for; one found as another is handed back; owners on the disk replace known ones |
| TorrentService.RestoredSet | backend/internal/torrent/service.go:190-203 | what a restart brings back is exactly the live torrents with a known source the backend finds again, and none returns as a stranger |
| TorrentService.RestartKeepsTheLibrary | backend/internal/torrent/service.go:101-295 | after any run, one restart keeps identifiers, owners and every read permission |
| TorrentService.CrashKeepsTheOldRegistry | backend/internal/torrent/service.go:101-170 | restarting twice without a save in between brings back the same torrents and owners |
| TorrentService.SecondRestartForgets | backend/internal/torrent/service.go:161-163 | after a save, a second restart brings back only torrents added anew in between |
| StreamDrain.NoDropUnderAReader | backend/internal/torrent/service.go:689-712 | between a removal and its drop, a stream of the torrent can be active at the drop only if the wait was given up or the torrent added again |
| StreamDrain.GivingUpDropsUnderAReader | backend/internal/torrent/service.go:706-712 | a wait that is given up does drop under a reader |
| StreamDrain.ReaddingDropsUnderAReader | backend/internal/torrent/service.go:700-712 | and so does an add between the end of the wait and the drop |
| StreamDrain.EachAddIsDroppedAtMostOnce | backend/internal/torrent/service.go:661-712 | in every run drops, removals under way and the live torrent are all paid for by adds |
| PieceMemory.Piece.WriteAt | backend/internal/storage/memory.go:48-68 | the buffer appears zeroed on the first write and takes the bytes in place, cut off at the end of the piece; the bytes allocated are the piece's length from then on |
| PieceMemory.Piece.ReadAt | backend/internal/storage/memory.go:27-45 | copies what there is, reports the end exactly when nothing was copied |
| PieceMemory.ReadsSeeTheLastWrite | backend/internal/storage/memory.go:48-68 | after any writes each byte is that of the last write that covered it, or zero |
| PieceMemory.LastWriteIsSeenExactlyIfKept | backend/internal/storage/memory.go:119-160 | a later read through the provider finds the last write if and only if the piece was kept and no close came between; otherwise it finds nothing |
| PieceMemory.FirstWritesAllocate | backend/internal/storage/memory.go:47-68 | in every run the bytes ever allocated are a whole piece for each write that found nothing, kept or not |
| PieceMemory.AllocationIsUnbounded | backend/internal/storage/memory.go:47-68 | pieces that were refused allocate bytes past any bound with nothing charged |
| PieceMemory.Pool.TryAllocate | backend/internal/storage/memory.go:202-222 | whatever other threads do between load and swap, the counter moves by their changes and by the size on success only; it fails only when full or after 100 lost swaps; call and rivals together are a run of the shared memory |
| PieceMemory.Provider.GetPiece | backend/internal/storage/memory.go:119-151 | a known piece costs nothing; a new one is charged and kept, or handed out uncharged and forgotten; what is kept is always what the shared memory holds, and the call is a run of it |
| PieceMemory.Provider.Close | backend/internal/storage/memory.go:154-160 | gives the charged bytes back and forgets the pieces, as the one step of the shared memory |
| Charging.FreshPool | backend/internal/storage/memory.go:172-177 | a fresh pool is where the runs below may start: within its capacity and balanced |
| Charging.CapacityHolds | backend/internal/storage/memory.go:202-222 | under every interleaving of loads and swaps the charged bytes stay within a positive capacity |
| Charging.ChargingIsConserved | backend/internal/storage/memory.go:119-160 | the counter is the kept pieces and the reservations under way less what repeated closes gave back twice; exact if and only if no close repeats one that had bytes to give back |
| Charging.SecondCloseGivesBackTwice | backend/internal/storage/memory.go:154-160 | the failing case at an input: one piece, its provider closed twice, and the counter is below zero by its length |
| Charging.OthersStayOut | backend/internal/storage/memory.go:128-150 | while a thread is inside a provider's lock, any run of the others leaves that provider's pieces and total alone |
| Charging.EachPieceIsChargedOnce | backend/internal/storage/memory.go:128-150 | however many threads ask at once, a piece is charged once, and once more at most per close of its torrent |

## Left out

What the model takes as given:

- libp2p, the DHT, relays, hole punching, dial timeouts and address discovery: a stream appears with an initiator, and a dial of the growing mesh succeeds and links both ends at once.
- JSON and `Parse`: messages are values; keyed hashing, hexadecimal, random challenges and the validity of multiaddrs and magnet links are parameters.
- Mutexes: the handling of one message by a room, one tick of the loop around the player and one operation of the torrent service are single steps in the modules about whole runs, although they take their locks more than once. Where another thread can come in between and it matters, the steps are apart: `sync_race.dfy`, `answer_race.dfy`, `dial_flights.dfy`, `disk_race.dfy`, `stream_drain.dfy`, `charging.dfy`, and in `torrent_library.dfy` the permission checks and the limit.
- RoomDriver.Room.Handle: commands of the local participant come before or after a message, not in the middle of its handling; `answer_race.dfy` has the one answer where that shows.
- The mesh's queue of 64 incoming messages is not full, and removing an entry and queueing its bye is one step (`mesh.go:805-831`).
- Room callbacks are all set; what they draw is not modelled.
- Handshake.ServeHandshake: white space is trimmed as ASCII only; a deadline that passes while a line is awaited is the end of the bytes.
- JoinTransfer.NewcomerKnows: members that do not host send no film, no host announcement and no role claim; nothing in the program sends those from them.
- Takeover.TakeoverConverges: nobody joins meanwhile, no member is refused, and messages name only their sender as host, as the program sends them.
- DialRace.SmallerInitiatorSurvives: each end opens one stream and no link fails by itself.
- MeshGrowth.StarGrowsIntoAMesh: nobody leaves meanwhile, and every member has an address.
- Playback.Window.SyncTheRoomStop: nothing comes in between its steps; `sync_race.dfy` has them apart.
- MeshStreams.Mesh.DialHint: nothing else marks a peer between its steps; `dial_flights.dfy` has them apart.
- Playback.Window.RoomTick: within one tick or message the player is missing, silent or answering throughout, and one that answers obeys at once. Seeks are not followed into the player.
- Playback.ReleaseRestoresTheUsersChoice: the window hosts throughout, each of its syncs is left alone, its player answers, and the user presses only while the room is not stopped; what happens otherwise is stated by SyncKeepsBracketExactly and PressKeepsBracketExactly.
- BufferWindow.TorrentBuffer.UpdatePosition: positions are not negative, as the handler requires. Floating point is exact; the share of the file is rounded down.
- BufferWindow.TorrentBuffer.GetBufferInfo: one registered torrent; the table of registrations and its not-found error are left out.
- Integers are unbounded; the counters of the memory pool stay far below 64 bits. The version in an invite code is bounded as the program's integers are.
- TorrentService.Service.SaveRegistry: writing succeeds; names, sizes and progress of torrents are not kept.
- TorrentService.Service.RemoveTorrent: the part up to the wait for active streams; the wait and the drop are the subject of `stream_drain.dfy`.
- TorrentService.Service.SelectFile: registering the buffer is left out; the permission check and the selection are two moments in `torrent_library.dfy` and follow each other here.
- TorrentService.Service.ServeFile: the counter of active streams is the subject of `stream_drain.dfy`.
- TorrentLibrary.StaleVerdictNeedsAnAdd: what a room shows to a participant stays the same between the check and the lookup.
- StreamDrain.NoDropUnderAReader: safety only; whether a wait ever drains is up to the readers.
- Deleting files on disk, the remote gateway, and closing the service or the whole memory storage.
- MagnetFor, ListTorrents, GetFiles, generating invites, rediscovery timing, HTTP handlers, tokens, limits on rate, and the user interface, which would add only easy members or are foreign calls.
