# Reservation service: replication protocol, verified

A Dafny model of the distributed restaurant reservation system: for each restaurant a primary and a
backup node, per-table locks, Lamport timestamps, synchronous replication, heartbeat failover, the
gateway's routing and retry, the newline framing between processes, and the client's table matching and
modify saga. `dafny verify dfyconfig.toml` verifies the whole project.

## How the model is built

**Step layer** (`NodeModel`, `SystemModel`). A node is a transition system over any number of concurrent
request handlers. A handler runs `_bookTable`, `_cancelReservation` or `_applyReplication` one shared
access at a time: wait for the table lock (or time out), check the key, draw the timestamp, send the
replication message, get its outcome, update the dictionary, release. A system is a primary, a backup and
the messages between them. A message may be lost; may arrive at any later time, also after the primary gave
up on it and after a crash (the 3 s reply wait is shorter than the 5 s lock wait); or may be applied
with its reply lost. The primary may crash between any two steps. A `with self.clock_lock` section waits for
nothing and is one step. Each node keeps the history of its dictionary updates and clock moves, and the
system the list of acknowledged writes; nothing in a step reads them.

**Object layer** (`Service`, `Heartbeat`, `Routing`, `Client`, `Framing`). The source's objects as classes
with their fields and loops as loops. A `ReservationService` object carries a ghost state of the step
layer: `Valid()` says that state is reached by steps, and every request method proves that it is the
uninterrupted sequence of its own steps (`NodeScripts.Served`). A lock whose holder does not run
within the call times out; what a socket exchange comes to is a parameter.

**Environment.** `IsRun` admits every interleaving, fault and delay, and also clients that write to the
backup while the primary lives. `IsFailStopRun` adds one assumption: client writes reach the backup, and
promotion happens, only after the primary has crashed. Every cross-node guarantee names the one it needs.
`Limits.SplitBrainDoubleBooks` shows that fail-stop cannot be dropped. The backup does not restart.

**Doubt.** A key is in doubt (`FailoverTheorems.InDoubt`) when the last thing the backup did to it was to apply
a replicated write the primary never confirmed. This also covers an abandoned message that arrives after
a later confirmed write (`Limits.LateMessageOverwrites`).

**Where the code does less than its documentation says.**

- `README.md` promises that every confirmed reservation exists on both nodes. A cancellation whose
  reply is lost removes a confirmed reservation from the backup only
  (`Limits.ConfirmedReservationCanBeMissing`). The promise holds of a reservation if and only if its key is not in
  doubt (`FailoverTheorems.ConfirmedReservationOnBothIff`).
- `README.md` claims that no table is booked twice. Even under fail-stop two bookings of one key can be acknowledged
  with no acknowledged cancellation between them: the backup applies a cancellation, the primary crashes before it hears
  of that, and the backup serves the second booking (`Limits.DoubleBookingUnderFailStop`). It happens if and only if the
  backup serves the second booking and the last write of the key it finds is a cancellation the primary
  never confirmed (`FailoverTheorems.DoubleBookingIff`).
- A live primary can be taken for dead. If exchanges last up to b seconds and up to L in a row lose their ping (the
  sender swallows the error), that is possible if and only if (L + 2) b + 2 (L + 1) > 6 (`Heartbeat.FalseAlarmIff`):
  with none lost, exchanges of more than 2 s, while the socket timeout allows 5 s per operation.
- The modify saga takes every missing reply for a failure and reports the original as restored without looking at the
  response. It can lose the reservation (a cancellation carried out whose reply is lost, for one) and it can
  double it (a new booking carried out whose reply is lost, then the original restored). When it does is
  given exactly by what its four requests met and whether the table it was offered is the original's own
  (`Client.Loses`, `Client.Doubles`, `Client.ModifyConservesIff`).
- Slot strings `date_timeslot` identify date and timeslot if and only if no date in use is another one followed by an
  underscore and more (`Records.SlotsDistinctIff`); dates are free text.

## Model

| member | source | states |
|---|---|---|
| Records.SlotsDistinctIff | services/reservation_service.py:316 | over any set of dates, different (date, timeslot) pairs have different slot strings if and only if no date is another one followed by an underscore and anything |
| Records.SlotInjective | services/reservation_service.py:316 | so they have for dates without an underscore and for dates of one length |
| Records.SlotCollision | services/reservation_service.py:316 | free-text dates can collide |
| Records.LastWriteWins | services/reservation_service.py:340-377 | after any sequence of writes a key holds the effect of its last write |
| Records.SortedReplayHoldsNewest | services/reservation_service.py:60-68 | executed in timestamp order, writes leave on each key the effect of the one with the largest timestamp |
| Records.SortSorts | services/reservation_service.py:60-68 | such an arrangement exists: sorting by timestamp orders the writes and loses none |
| Records.TablesCommute | services/reservation_service.py:38-43 | two interleavings with the same order on every table leave the same dictionary |
| NodeModel.StepKeepsNodeInv | services/reservation_service.py:207-382 | every step of any handler keeps: lock table and phases agree, what a lock holder checked still holds, stamps are distinct, the dictionary is the replay of its history, local writes were legal and ascend on each table |
| NodeTheorems.FirstLocalWriteIsBooking | services/reservation_service.py:364-366 | the first write of a key, if local, is a booking |
| NodeTheorems.LocalTimestampsDistinct | services/reservation_service.py:60-68 | committed local writes of a node have different timestamps |
| NodeTheorems.StampExceedsStored | services/reservation_service.py:70-77 | a timestamp exceeds that of every record stored when it is drawn |
| NodeTheorems.InterleavingsAgree | services/reservation_service.py:38-43 | two histories that agree table by table, timestamps and creation times aside, give the same dictionary aside from those |
| SystemModel.MoveKeepsSysInv | replication/primary.py:19-31 | every move of handlers, network and environment keeps: messages match the writes of their senders, a replication that succeeded has been applied by the backup, the acknowledgements are exactly the `ok` responses |
| SystemModel.ReachableSysInv | services/reservation_service.py:207-382 | that invariant holds in every reachable state, with no assumption on the environment |
| FailStopModel.AppliedLiveIsNewest | services/reservation_service.py:219-239 | a write the primary still stands by is, when the backup applies it, newer than every replicated write applied before on its table |
| FailStopModel.MoveKeepsFailStopInv | services/reservation_service.py:207-382 | every move of a fail-stop run keeps: one writer until the crash, live writes applied in timestamp order, late ones never confirmed, acknowledgements in timestamp order per table and primary before backup, older than whatever started later |
| FailStopModel.ReachableFailStopInv | services/reservation_service.py:207-382 | that invariant holds in every state of every fail-stop run |
| FailoverTheorems.PrimarySerializable | services/reservation_service.py:298-382 | in every reachable state, with no assumption on the environment, the primary's dictionary equals its committed writes executed in timestamp order |
| FailoverTheorems.ReplicasAgree | services/reservation_service.py:207-239 | before the crash a key that is not locked at the primary and not in doubt has the same record on both nodes, or none |
| FailoverTheorems.ReplicasAgreeIff | services/reservation_service.py:207-239 | before the crash the nodes agree on an unlocked key, held or not, if and only if it is not in doubt, or the primary holds nothing and the doubtful write was a cancellation |
| FailoverTheorems.ConfirmedReservationOnBothIff | README.md:71-73 | a confirmed reservation exists on both nodes if and only if its key is not in doubt |
| FailoverTheorems.FailoverPreservesHistory | services/reservation_service.py:125-149 | before and after failover the backup holds, for a key not in doubt, what all acknowledged writes of both nodes leave in timestamp order |
| FailoverTheorems.FailoverPreservesWholeHistory | services/reservation_service.py:125-149 | with no key in doubt the backup's whole dictionary is the acknowledged writes sorted by timestamp |
| FailoverTheorems.ConfirmedReservationSurvivesIff | README.md:71-73 | before and after failover, the backup holds a confirmed reservation that no later acknowledged write replaced if and only if its key is not in doubt, or what put it in doubt was a late request for the same booking with the same timestamp and creation time |
| Interleavings.InterleavingDoesNotMatter | services/reservation_service.py:38-43 | two fail-stop runs that attempt the same writes in the same order per table, with the same replication outcomes and no late message, end with the same dictionaries on both nodes, timestamps and creation times aside |
| Interleavings.BackupFollowsAttempts | services/reservation_service.py:219-239 | the backup's history of a table is what it applied of the primary's attempts there, in their order, then its own writes |
| Interleavings.TableReplicatedInOrder | services/reservation_service.py:336-377 | before the crash, with nothing unconfirmed applied on a table and its lock free, both nodes went through the same writes there in the same order |
| Interleavings.AttemptsHaveAnOrder | services/reservation_service.py:60-68 | in every reachable state the writes attempted on a table can be listed in strictly ascending timestamp order |
| FailoverTheorems.TimestampsExtendRealTime | services/reservation_service.py:70-85 | a write acknowledged before another acknowledged write's request arrived has the smaller timestamp, on any tables and across the failover |
| FailoverTheorems.AckedTimestampsDistinct | services/reservation_service.py:70-85 | all acknowledged timestamps of a restaurant are distinct, across the failover |
| FailoverTheorems.LocksExclusiveAndReleased | services/reservation_service.py:309-345 | in every reachable state no two handlers of a node are inside one table's lock, and a handler that returned, whatever it returned, holds none |
| FailoverTheorems.MutualExclusion | services/reservation_service.py:309-345 | without any environment assumption, two bookings of a key served by one node are separated by a cancellation on that node |
| FailoverTheorems.NoDoubleBooking | README.md:9 | between two acknowledged bookings of a key lies an acknowledged cancellation, or the backup applied an unconfirmed replicated cancellation between them; likewise with the roles exchanged |
| FailoverTheorems.DoubleBookingIff | README.md:9 | an acknowledged write is of the same kind as the acknowledged write of its key before it (a first one: a cancellation) if and only if the backup served it and the last write of the key it found was an unconfirmed replicated one of the opposite kind |
| FailoverTheorems.FirstAckIsBooking | services/reservation_service.py:364-366 | the first acknowledged write of a key is a booking if and only if the backup did not serve it upon finding a booking the primary never confirmed |
| FailoverTheorems.AcknowledgedWritesAlternate | services/reservation_service.py:317-377 | with no unconfirmed replicated write of the key, acknowledged bookings and cancellations strictly alternate from a booking |
| Resync.OneWriteResynchronises | services/reservation_service.py:227-235 | whatever the replicas held, one acknowledged write of a key makes them agree on it until the primary next gives up on that key, if no abandoned message for it is undelivered |
| BackupClock.PeerClockBounds | services/reservation_service.py:70-85 | n timestamps received in any order with maximum M leave the clock between M + 1 and M + n |
| BackupClock.PeerClockInOrder | services/reservation_service.py:70-85 | received in ascending order they leave it at M + 1 |
| BackupClock.RunKeepsTicks | services/reservation_service.py:60-85 | in every state of every run each node's clock is the outcome of its moves: draws of client handlers, and exactly one peer move for each replicated write that advanced it |
| BackupClock.BackupClockBounds | services/reservation_service.py:227-234 | until the crash the backup's clock c satisfies M + 1 <= c <= M + n after n messages with largest timestamp M |
| BackupClock.BackupClockInOrder | services/reservation_service.py:227-234 | delivered in timestamp order, c = M + 1 |
| Progress.NoDeadlock | services/reservation_service.py:309-382 | in every reachable state with an unfinished handler on a running node some step other than a timeout or fault can happen |
| Progress.MovesSoFar | services/reservation_service.py:207-382 | at every point of a run the moves so far and the work left are bounded by the requests that arrived |
| Progress.RunsAreShort | services/reservation_service.py:207-382 | a run with N requests has at most 18 N + 2 moves |
| Progress.StuckMeansFinished | services/reservation_service.py:344-382 | when nothing can progress, every handler of a running node has returned and every lock of it is free |
| Retry.FirstAttemptRuns | services/reservation_service.py:298-382 | from a request's arrival on, wherever it is interrupted, the backup holds for its key the old value or the effect of that request's own write, as long as nobody else writes the key |
| Retry.BothAttemptsRun | gateway/gateway.py:51-66 | while the request is repeated on the backup, its key there holds the old value until either attempt has written it, and from then on what one execution leaves, as long as no third handler writes the key |
| Retry.RetryIsAtMostOnce | gateway/gateway.py:51-66 | a request interrupted anywhere on the primary and repeated on the backup leaves the key as exactly one execution would, whenever the first attempt's message arrives |
| Limits.ConfirmedReservationCanBeMissing | README.md:71-73 | a fail-stop run after which a confirmed reservation exists on the primary only |
| Limits.DoubleBookingUnderFailStop | README.md:9 | a fail-stop run with two acknowledged bookings of one key and no acknowledged cancellation |
| Limits.SplitBrainDoubleBooks | gateway/gateway.py:58-65 | without fail-stop one key can get two acknowledged bookings and no cancellation |
| Limits.LateMessageOverwrites | replication/primary.py:14-31 | an abandoned booking that arrives late overwrites a later confirmed one on the backup |
| Limits.LostMessageIsHarmless | replication/primary.py:19-31 | a lost message costs a refused request and one timestamp; the same request then succeeds on both nodes |
| NodeScripts.ServesRequest | services/reservation_service.py:298-382 | a client request served without interruption comes to the decision the checks call for, with its effect on dictionary and clock, and leaves the locks as they were |
| NodeScripts.ServesReplica | services/reservation_service.py:207-239 | a replicated write served without interruption is applied, with the clock past its timestamp |
| Service.PrimaryReplicator.Replicate | replication/primary.py:19-31 | True exactly for a reply with status `ok`; the message has left unless the connection failed |
| Service.ReservationService.constructor | services/reservation_service.py:26-56 | empty dictionary, clock 0, a replicator exactly for a primary whose port has a backup |
| Service.ReservationService.DictionaryIsSerialReplay | services/reservation_service.py:298-382 | the object is always in a state of the step layer, so its dictionary is its committed writes in timestamp order |
| Service.ReservationService.AdvanceLamportFromPeer | services/reservation_service.py:70-85 | the clock ends above both its old value and the peer's timestamp, by one; no usable timestamp, no move |
| Service.ReservationService.PromoteToPrimary | services/reservation_service.py:125-149 | the roles flip once; a backup port gets no replicator; a second call changes nothing |
| Service.ReservationService.ReplicateBook | services/reservation_service.py:266-283 | True without an exchange when there is nobody to forward to, else the reply; exactly the booking's message leaves, if the connection is made |
| Service.ReservationService.ReplicateCancel | services/reservation_service.py:285-296 | the same for a cancellation, with the cancelled record |
| Service.ReservationService.ApplyReplication | services/reservation_service.py:207-239 | applied exactly for a well-formed message whose table exists and is free, with the effect and the steps of the step layer; otherwise nothing changes |
| Service.ReservationService.BookTable | services/reservation_service.py:298-345 | accepted exactly when table, lock, key and replication allow it, with the new record, else rejected with the reason; one message "book" with key and whole record leaves exactly if the request was stamped, somebody replicates and the connection is made; the call is the uninterrupted sequence of its own steps with the outcome the step layer decides |
| Service.ReservationService.CancelReservation | services/reservation_service.py:347-382 | the same: the key is removed, and the message "cancel" carries the old record with the new timestamp |
| Service.BookOnBoth | services/reservation_service.py:207-345 | a booking at the primary whose message the backup processes in time is accepted exactly when both can take it, and then both hold the same record for the key; nothing else changes |
| Service.CancelOnBoth | services/reservation_service.py:207-382 | the same for a cancellation, which removes the key on both |
| Service.ServeAllOnBoth | services/reservation_service.py:207-382 | two objects that hold the same reservations hold the same after any requests served so |
| Service.ReservationService.CheckAvailability | services/reservation_service.py:241-264 | returns FreeTables of the current dictionary |
| Service.FreeTablesExact | services/reservation_service.py:246-256 | a table is offered exactly when it seats the party and is free at the slot |
| Service.FreeTablesInOrder | services/reservation_service.py:246-256 | the offered tables are a subsequence of the tables |
| Heartbeat.HeartbeatSender.Run | replication/heartbeat.py:24-51 | the pings recorded are those of the exchanges that got through, none without a backup port |
| Heartbeat.RecordedExactly | replication/heartbeat.py:24-51 | the pings recorded are exactly those of the exchanges that got through, at their times |
| Heartbeat.RecordedAll | replication/heartbeat.py:24-51 | when every exchange gets through every ping is recorded, at its time |
| Heartbeat.HeartbeatMonitor.WatchdogLoop | replication/heartbeat.py:73-84 | one promotion at the first tick that finds the primary overdue, none if no tick does |
| Heartbeat.RecordedGaps | replication/heartbeat.py:24-51 | with exchanges of at most b seconds and at most L lost pings in a row, recorded pings ascend and are at most (L + 2) b + (L + 1) INTERVAL apart |
| Heartbeat.LivePrimaryNeverOverdue | common/config.py:31-33 | while that gap is within the timeout, no tick finds the primary overdue as long as its sender runs, nor until a timeout after its last ping |
| Heartbeat.FalseAlarmIff | common/config.py:31-33 | some schedule within the bounds makes a tick of a watchdog take a live primary for dead if and only if that gap exceeds the timeout |
| Heartbeat.DetectionLatency | replication/heartbeat.py:73-84 | when pings stop the first overdue tick comes more than 6 and at most 6.5 seconds after the last |
| Heartbeat.Detect | replication/heartbeat.py:24-84 | sender and watchdog together: no promotion while the sender runs, and exactly one, more than 6 and at most 6.5 seconds after the last ping, once it has stopped |
| Routing.BackupService.Promote | replication/backup.py:41-60 | the service takes over and the first entry at the primary's port now points to it |
| Routing.RoutesAfterPromotions | replication/backup.py:51-60 | after any promotions in any order a restaurant maps to its backup exactly when it was promoted, else to where it was |
| Routing.PortsStayDistinct | common/config.py:39-42 | ports stay distinct through any promotions |
| Routing.AddressAfterPromotions | gateway/gateway.py:69-71 | where the gateway finds a shard after promotions, and that only an unpromoted one has a retry address |
| Routing.RouteRequest | gateway/gateway.py:58-71 | a shard with primary port p is, once promoted, tried exactly once, at port p + 1000; any other at p first and, only if that fails, at 127.0.0.1, port p + 1000 |
| Client.LowerIff | client/client.py:165 | lower-casing makes two texts equal exactly when they have the same letters, case aside |
| Client.MatchIsBestFit | client/client.py:158-169 | the earliest smallest table among those at the preferred location, case aside, if any, else among all; none only if there are none |
| Client.FilterSort | client/client.py:162-166 | filtering by location after the stable sort equals sorting what the filter keeps |
| Client.ChoiceIs | client/client.py:315-336 | the n-th offered table, or none, if no offered table is at the preferred location and the user declines the match and names n; else the best fit |
| Client.MakeReservation | client/client.py:298-346 | exactly the tables that seat the party and are free are offered; the best fit of them (or the n-th, after declining) is booked whenever the request arrives, its lock is free and replication is acknowledged; without an offer or a choice nothing changes |
| Client.ModifyReservation | client/client.py:450-503 | what each fate of its four requests (refused, carried out, carried out with the reply lost or overdue) makes of the dictionary, and exactly when the reservations are conserved |
| Client.Restore | client/client.py:465-470 | the original key is booked again with the original's data if the request arrives, the key is free and replication is acknowledged |
| Client.ModifyConservesIff | client/client.py:450-503 | exactly one reservation stands in for the original and every other key is as before if and only if the saga neither loses nor doubles it, each of which happens exactly for the stated fates of its requests and offered table |
| Framing.ReceiveMessage | common/protocol.py:23-39 | delivers the first line of what the chunks make up, fails exactly when they end before a newline |
| Framing.ReceivePieces | common/protocol.py:23-39 | for a stream cut anywhere into non-empty pieces: exactly what precedes its first newline is delivered, and a stream without one is an error |
| Framing.RoundTrip | common/protocol.py:17-39 | a newline-free payload is the first line of the stream it was sent in, wherever that is cut and whatever follows |
| Framing.SendAndReceive | common/protocol.py:17-39 | so the receive loop delivers exactly the payload |
| Framing.DumpsPrintable | common/protocol.py:19 | the JSON text of any message, floats included, is printable ASCII (control characters escaped as in section 7 of RFC 8259) |
| Framing.EscapeRoundTrip | common/protocol.py:19 | the escaped text of a string, read as in section 7 of RFC 8259, stands for that string |
| Framing.DecimalRoundTrip | common/protocol.py:19 | the digits of a number stand for that number |
| Framing.JsonSurvivesFraming | common/protocol.py:17-39 | every JSON message survives framing |

## Left out

- Service.ReservationService.ApplyReplication: assumes the message carries a complete reservation record, as the only sender always does; the source stores an empty record for a `book` without one and leaves the clock alone without a timestamp.
- Framing.ReceiveMessage: characters stand for ASCII bytes; decoding of other bytes and failures of json.loads are not part of this model.
- Client.MatchTable: lower-casing is ASCII only.
- Framing.DumpsPrintable: strings and integers are read back; of the text of arrays, objects and floats only printability is proved, as the JSON library itself is not part of this model.
- Client.ModifyReservation: no other client runs during the call (no lock is held when it starts), and one node serves all of it; what a retry on the other node does to a single request is Retry.RetryIsAtMostOnce.
- Heartbeat.HeartbeatMonitor.WatchdogLoop: ticks cost nothing, the clock is monotone, and stopping the monitor is not modelled.
- Routing.SendToServiceWithFailover: a transport failure is its own kind of answer; the source recognises it by the word "unavailable" in an error text.
- Sockets, threads, HTTP parsing and the request dispatcher: represented by handlers, messages and parameters.
- Restart of a node, and safety while a live primary and a backup both take writes: the source promises nothing there; Limits.SplitBrainDoubleBooks shows what happens.
- Listing reservations, restaurant descriptions, the restaurant overview of the gateway, menus and prompts of the client: none of them writes, and the protocol does not depend on what they return. Unlocked reads are modelled in one state, not as snapshots under concurrent writes.
- The value of `created_at` is a parameter; times and timestamps are unbounded numbers.
