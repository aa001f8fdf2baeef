# Xinu: kernel, TCP/IP and spooler, proved

A Dafny model of the algorithms of a Xinu kernel with an IP/TCP stack and a print spooler, and proofs about
them. `dafny verify dfyconfig.toml` checks everything.

Each component has a specification on values (functions and predicates about whole states, with the lemmas that
matter about every run) and, where the original works in place, classes and array methods whose postconditions
equate the new state with the specification's.

| files | component |
|---|---|
| `Gpq` | the generic priority queue under IP and TCP reassembly: higher keys first, equal keys in order of arrival |
| `Ring`, `TcpSegment`, `TcpSend`, `TcpReceive`, `TcpArrival`, `TcpConnection` | one direction of an established TCP connection: send ring, receive ring, out-of-order ranges, acknowledgements, windows; two endpoints over a network that may lose, repeat and reorder |
| `KernelSpec`, `KernelLists`, `KernelInv`, `KernelRuns`, `KernelEffects`, `KernelFrames`, `KernelReady`, `KernelSlice`, `KernelSleep`, `KernelDefer`, `QTable`, `Kernel` | process table, semaphores, ready list, sleep queue and scheduling, every call that changes them as a step; what each call does, in what order processes are released and run, when the clock switches and when sleepers wake; the `q[]` table of doubly linked lists in place |
| `IpFragment`, `IpReassembly`, `IpReassTable` | fragmentation and reassembly of datagrams without options |
| `Ports`, `PortEffects`, `PortTable` | message ports under any interleaving of blocked and released processes |
| `Qsort` | the in-place three-way quicksort |
| `Routes`, `RouteEffects`, `RouteTable` | the hashed routing table with reference counts and ageing |
| `Heap`, `HeapList` | the heap's free list |
| `TcpTimer`, `TcpOutput` | the TCP timer queue; transmit loop, round-trip estimate, congestion window, retries |
| `Netascii`, `Checksum` | the TFTP daemon's decoder, the Internet checksum |
| `Spool`, `SpoolRuns` | the print spooler: jobs as chains of nodes from one pool, written, waiting, ended and printed in any order |

## Conventions

- Integers are unbounded except where width matters: `TcpSegment.Signed32` and `Checksum` write the wrap-around out.
  TCP sequence numbers are not wrapped; `TcpSegment.SeqCmpOrders` says when comparing wrapped ones is the same.
- A call that can let another process run is split there; what follows is a later step of the same process.
  `kill` is two steps because the message to the next of kin can reschedule; the clock routine and `strtclk` are two
  when waking the sleepers does, as the rest of the time slice is theirs. A suicide ends with its `resched`.
- A context switch is the change of `currpid`. Interrupt masking makes each step atomic.
- Exhausted resources (buffers, queues, memory) are parameters of the steps that ask for them.
- Requirements that callers must meet are those of the source: the null process makes no call that could block it
  (`xinu/sys/mio/initialize.c:61-67`), priorities fit in 32 bits, a timed receive waits for at least one tick.
- The clock is that of the mio board (`xinu/sys/mio/clkinit.c`), which never looks at `defclk`. The one of the sun350
  board (`xinu/sys/sun350/clkint.s`), which defers ticks, is in `KernelDefer`, as far as the sleep queue goes.

## Where the code departs from what is said about it

- `xinu/sys/sun350/clkint.s:88-93` wakes the first sleeper only when its key falls below 0, a tick later than
  `xinu/sys/mio/clkinit.c:71-75` and than `wakeup` and `strtclk` count: `KernelDefer.SunDeferredTicks` says when making
  up for deferred ticks is nevertheless the same.
- `xinu/sys/common/recvtim.c:19-26` accepts a time of 0, which leaves an entry without time left in the sleep queue.
- `xinu/sys/common/unsleep.c:13` is declared a system call, but by itself leaves a process in a sleeper's state off the
  queue; `send` and `kill` give the process its next state.
- `xinu/sys/common/sendf.c:24` counts forced messages in a byte (`include/proc.h:37`): the 256th in a row is lost.
- `include/tcp.h:5-14` claims SEQCMP for any two sequence numbers; it holds for distances below half the space.
- `xinu/ipnet/common/tcp_ok.c:42-45` says that with a shut window ACK, RST and URG are kept; the segment with the
  stripped data is refused as a whole, so that they are not looked at.
- `xinu/ipnet/common/tcpd_gspace.c:17` refuses writes larger than the ring as never satisfiable, but a write of
  exactly the ring's size is never satisfied either.
- `xinu/ipnet/common/ip_fjoin.c:35` remembers the end of the last fragment, not the furthest end: fragments contained
  in earlier ones can hide the rest. Its size test (line 36) allows as much data as the large buffer has bytes, but the
  link's and IP's headers need 40 of them: `IpReassembly.JoinOverrunsIff` says exactly when the copy runs past the end,
  `IpReassembly.EthernetOverrun` gives an input.
- `xinu/ipnet/common/ip_putp.c:44` makes pieces of no data, for ever, exactly when the MTU is below 28
  (`IpFragment.FragmentingEnds`).
- `xinu/ipnet/common/ip_reass.c:43-46` matches fragments by source and identification only, not by destination and
  protocol as well (section 3.2 of RFC 791): two datagrams of a sender that uses an identification for both can be
  mixed (`IpReassembly.TwoDatagramsMix`).
- `xinu/ipnet/common/tcp_timer.c:34-42` counts a timer's time from the last run of the timer process, so that timers
  can run out early, by up to ten seconds when that run was so long ago (`TcpTimer.EarlyUnlessJustRun`,
  `TcpTimer.HowEarly`).
- `xinu/ipnet/common/tcp_rtt.c:35-38` says that the timeout is twice the sum of estimate and deviation; what it computes
  is the estimate and twice the deviation (`TcpOutput.SampleExact`).
- `xinu/ipnet/common/rt_timer.c:29-30` takes a route whose time counts down to exactly 999 for one without a limit
  (`Routes.GoneInTime`).
- `xinu/ipnet/common/rt_hash.c:17-25` hashes by the class of the address, so that routes whose mask is shorter are missed
  by some of their destinations (`Routes.MatchHashesIff`).
- `xinu/apps/common/tftpd.c:453-497` ends without a value although its callers look at one.
- `xinu/apps/common/spooler.c:661` needs a node even when nothing was written to the job (`SpoolRuns.DisconnectsNullIff`),
  and an empty write to a job whose last node is full links an empty one.
- `xinu/apps/common/despool.c:111` takes the successor of a full node that may not have one yet (`SpoolRuns.NoNextIff`).

## Model

| member | source | states |
|---|---|---|
| `Gpq.EnqSorted` | xinu/sys/common/gpq.c:58-74 | an insertion keeps the queue in order of falling key |
| `Gpq.EnqKeepsEntries` | xinu/sys/common/gpq.c:58-74 | an insertion adds the new entry, once, and loses none |
| `Gpq.EnqIsStable` | xinu/sys/common/gpq.c:61-70 | the entries of each key form a queue of their own: a new one goes behind its equals |
| `Gpq.EnqAt` | xinu/sys/common/gpq.c:61-70 | wherever the search from the tail may stop decides the result, even in a queue that is not in order |
| `Gpq.HeadIsFirstOfHighest` | xinu/sys/common/gpq.c:61-115 | after any arrivals the head is the earliest of the highest key, and the rest is what the other arrivals alone would have built |
| `Gpq.Queue.constructor` | xinu/sys/common/gpq.c:187-195 | a new queue is empty and has no walk under way |
| `Gpq.Queue.Enqueue` | xinu/sys/common/gpq.c:45-80 | refuses when full and changes nothing; else the shifted arrays hold the stable insertion, and the places left are returned |
| `Gpq.Queue.Place` | xinu/sys/common/gpq.c:61-64 | the tail search stops behind the last entry whose key is not lower |
| `Gpq.Queue.InsertAt` | xinu/sys/common/gpq.c:67-73 | exactly one entry appears at the place found; the others keep their order |
| `Gpq.Queue.Dequeue` | xinu/sys/common/gpq.c:97-120 | takes the head and moves the rest up; empty is reported |
| `Gpq.Queue.SeeNext` | xinu/sys/common/gpq.c:136-164 | a walk shows each entry once, in order, leaves the queue alone and is reset at its end |
| `TcpReceive.ReceiveKeepsInv` | xinu/ipnet/common/tcp_data.c:25-47 | any genuine segment, in any order or repeated, leaves the rbcount bytes from rbstart the stream just before rnext, and every queued range inside the window with its bytes in place |
| `TcpReceive.ReceiveFillsGap` | xinu/ipnet/common/tcp_tfcoal.c:29-50 | a segment that closes the gap moves rnext over everything queued that it reaches: rnext stops at the first byte not yet there |
| `TcpReceive.CoalesceKeepsInv` | xinu/ipnet/common/tcp_tfcoal.c:19-51 | absorbing queued ranges keeps the ring, the queue and the stream in agreement |
| `TcpReceive.InsertKeepsInv` | xinu/ipnet/common/tcp_tfinsert.c:19-27 | queueing an out-of-order range keeps them in agreement, also when the queue is full and the range is dropped |
| `TcpReceive.DoDataKeepsInv` | xinu/ipnet/common/tcp_dodat.c:19-44 | in-order and out-of-order data both keep the invariant |
| `TcpReceive.CopyKeepsInv` | xinu/ipnet/common/tcp_data.c:38-46 | copying a trimmed segment into the ring overwrites no unread byte and no queued one with anything else |
| `TcpReceive.AdvertiseKeepsInv` | xinu/ipnet/common/tcp_rwindow.c:16-29 | advertising never moves the right edge left, never past rnext plus the free space, and keeps the invariant |
| `TcpReceive.NoSillyWindow` | xinu/ipnet/common/tcp_rwindow.c:16-29 | beyond what was advertised and not yet used the window opens if and only if there is more room, at least a quarter of the buffer and a whole segment, and then for all of it; otherwise the edge stays, or is where the data already is (section 4.2.3.3 of RFC 1122) |
| `TcpReceive.ReadKeepsInv` | xinu/ipnet/common/tcpd_getdata.c:24-52 | a read delivers the next bytes of the stream, in order, and keeps the invariant |
| `TcpReceive.Receiver.constructor` | xinu/ipnet/common/tcp_winit.c:38-42 | the block that the handshake leaves satisfies the invariant for an empty stream |
| `TcpReceive.Receiver.TcpOk` | xinu/ipnet/common/tcp_ok.c:20-45 | the acceptability test of section 3.3 of RFC 793, as the code decides it; when the window is shut and data is stripped the segment is refused |
| `TcpReceive.Receiver.TcpRWindow` | xinu/ipnet/common/tcp_rwindow.c:16-29 | the window and the new edge are those of the specification |
| `TcpReceive.Receiver.TfCoalesce` | xinu/ipnet/common/tcp_tfcoal.c:19-51 | the in-place drain of the queue leaves exactly the specified block |
| `TcpReceive.Receiver.TfInsert` | xinu/ipnet/common/tcp_tfinsert.c:19-28 | an empty range is ignored, a new queue made when there is none, a full one left as it is |
| `TcpReceive.Receiver.TcpDoDat` | xinu/ipnet/common/tcp_dodat.c:19-44 | the block after in-order or out-of-order data, push flags included |
| `TcpReceive.Receiver.TcpData` | xinu/ipnet/common/tcp_data.c:25-47 | trimming, the wrapping copy and the bookkeeping together are the specified reception |
| `TcpReceive.Receiver.StoreData` | xinu/ipnet/common/tcp_data.c:38-46 | the wrapping copy loop writes exactly the given bytes at their slots |
| `TcpReceive.Receiver.TcpGetData` | xinu/ipnet/common/tcpd_getdata.c:24-53 | the read loop returns the oldest bytes and leaves the specified block |
| `TcpArrival.AcceptableIff` | xinu/ipnet/common/tcp_ok.c:29-45 | a segment with data is taken if and only if it has a byte in the window and does not stick out of it on both sides |
| `TcpArrival.OutOfOrderIsQueued` | xinu/ipnet/common/tcp_tfinsert.c:19-27 | a segment behind rnext adds one range, its part inside the window, and loses none, if and only if there is a queue with fewer than ten ranges or none yet and a queue to be had; otherwise the range is dropped |
| `TcpArrival.ReceiveKnows` | xinu/ipnet/common/tcp_data.c:25-47 | after a segment the receiver has exactly the bytes it had and those of the segment in the window, unless they are out of order and there is no room for their range |
| `TcpArrival.AnyOrder` | xinu/ipnet/common/tcp_data.c:25-47 | after segments in any order, cut and repeated in any way, as many as the queue has places, it has exactly the bytes it had and those they brought |
| `TcpArrival.FirstMissing` | xinu/ipnet/common/tcp_tfcoal.c:29-50 | rnext then is the first byte that was not there and that none of them brought |
| `TcpArrival.FlagsExact` | xinu/ipnet/common/tcp_dodat.c:19-44 | data in order asks for an acknowledgement and is pushed by its own flag or on reaching the end of the latest pushed data out of order; data out of order only leaves that end |
| `TcpArrival.ReadFlags` | xinu/ipnet/common/tcpd_getdata.c:42-52 | the push ends with the last byte read; output is asked for exactly when the window was shut and the read makes enough room |
| `TcpSend.WriteKeepsInv` | xinu/ipnet/common/tcpd_wr.c:27-36 | after a write the ring holds exactly the written and unacknowledged bytes, the new ones last |
| `TcpSend.SendIsGenuine` | xinu/ipnet/common/tcp_send.c:29-84 | every segment, new or repeated, carries the stream bytes of its sequence numbers; afterwards snext has passed them; the ring invariant stays |
| `TcpSend.AckedKeepsInv` | xinu/ipnet/common/tcp_acked.c:21-46 | an acknowledgement releases exactly the bytes before it; duplicates and acknowledgements of data never sent change nothing |
| `TcpSend.RingContents` | xinu/ipnet/common/tcp_send.c:64-70 | reading the whole ring from sbstart gives the unacknowledged stream |
| `TcpSend.FullRingWriteWaitsForEver` | xinu/ipnet/common/tcpd_gspace.c:17-31 | some state of the ring has room for a write if and only if it is shorter than the ring; a write of exactly the ring passes the too-big test and waits in every state |
| `TcpSend.NewDataLength` | xinu/ipnet/common/tcp_sndlen.c:22-33 | a new segment carries as much as is unsent, as the segment size and as the peer's window allow, whichever is least |
| `TcpSend.RepeatedLength` | xinu/ipnet/common/tcp_sndlen.c:22-33 | a repeated segment starts at suna and carries what is unacknowledged or a whole segment, whatever the window; snext moves only if it reaches beyond |
| `TcpSend.SpaceExact` | xinu/ipnet/common/tcpd_gspace.c:17-31 | room is for writes that leave a byte of the ring free; too big are those longer than the ring |
| `TcpSend.NewestWindow` | xinu/ipnet/common/tcp_swindow.c:19-33 | in whatever order segments arrive the window is that of the newest by sequence and then acknowledgement, of several the last to arrive |
| `TcpSend.Sender.constructor` | xinu/ipnet/common/tcp_sync.c:20-23 | a fresh block satisfies the ring invariant for an empty stream |
| `TcpSend.Sender.TcpGetSpace` | xinu/ipnet/common/tcpd_gspace.c:17-31 | one turn of the wait for space: too big, room, or wait |
| `TcpSend.Sender.TcpWr` | xinu/ipnet/common/tcpd_wr.c:27-36 | the wrapping copy loop appends the data behind what is buffered |
| `TcpSend.Sender.TcpSndLen` | xinu/ipnet/common/tcp_sndlen.c:22-33 | offset and length for new data and for a retransmission |
| `TcpSend.Sender.TcpSend` | xinu/ipnet/common/tcp_send.c:29-84 | the segment sent and the new snext, for new data and for a retransmission |
| `TcpSend.Sender.Fetch` | xinu/ipnet/common/tcp_send.c:65-70 | the wrapping copy loop out of the ring |
| `TcpSend.Sender.TcpAcked` | xinu/ipnet/common/tcp_acked.c:21-50 | suna, sbstart and sbcount after an acknowledgement, and the bytes it acknowledged |
| `TcpSend.Sender.TcpSWindow` | xinu/ipnet/common/tcp_swindow.c:14-43 | only a segment that is newer by sequence, then by acknowledgement, changes the window |
| `TcpConnection.StepKeepsInv` | xinu/ipnet/common/tcp_data.c:25-47 | every step of two endpoints and of a network that loses, repeats and reorders keeps both rings, all packets ever sent and the bytes read in agreement with the stream |
| `TcpConnection.EndToEnd` | xinu/ipnet/common/tcp_data.c:25-47 | over every run the bytes read are a prefix of the bytes written |
| `TcpConnection.Conserved` | xinu/ipnet/common/tcp_acked.c:21-46 | suna never passes the receiver's rnext: every written byte is still in the send ring or has been received |
| `TcpConnection.EdgeNeverMovesLeft` | xinu/ipnet/common/tcp_rwindow.c:25-28 | over every run the advertised right edge never moves left |
| `TcpConnection.EdgeMovesFar` | xinu/ipnet/common/tcp_rwindow.c:19-28 | no step of the connection moves the edge past the data received but to the end of the room, which is then at least a quarter of the buffer and a whole segment |
| `TcpConnection.ResendMakesProgress` | xinu/ipnet/common/tcp_send.c:72-75 | while the receiver has room, resending the oldest unacknowledged bytes either advances rnext or draws an acknowledgement that is new to the sender |
| `TcpConnection.FullReceiverIsSilent` | xinu/ipnet/common/tcp_ackit.c:21-23 | with the buffer full the data of a segment is stripped first and then draws no acknowledgement: nothing changes |
| `TcpConnection.ReadEndsSilence` | xinu/ipnet/common/tcpd_getdata.c:44-52 | after a full buffer a read calls for an acknowledgement if and only if it makes room for a quarter of the buffer and a whole segment; it acknowledges everything and advertises that room |
| `TcpSegment.SeqCmpOrders` | include/tcp.h:5-14 | for positions less than the sequence space apart SEQCMP tells order and equality if and only if they are less than half the space apart |
| `TcpSegment.SeqCmpFails` | include/tcp.h:5-14 | two words for which the header's claim for any a, b is false |
| `KernelInv.StepKeepsInv` | xinu/sys/common/kill.c:35-53 | every call that changes processes, semaphores or lists, and every clock interrupt, keeps the kernel-wide invariant: states and lists agree, counts and waiters agree, ready keys are priorities, the running process outranks every ready one, sltop and slnempty describe the first sleeper |
| `KernelRuns.RunKeepsInv` | xinu/sys/mio/initialize.c:61-67 | in every state of every run from sysinit the invariant holds; in particular the null process is running or ready |
| `KernelInv.SomeoneIsReady` | xinu/sys/68000/resched.c:49-52 | when the current process cannot go on, the ready list is not empty |
| `KernelInv.ReschedInv` | xinu/sys/68000/resched.c:25-52 | resched leaves the highest-priority process running |
| `KernelEffects.WaitStops` | xinu/sys/common/wait.c:25-30 | the count goes down by one; the caller stops and joins the end of the list exactly when it was not positive |
| `KernelEffects.SignalReleases` | xinu/sys/common/signaln.c:25-29 | n signals release exactly the first n waiters, or all when there are fewer; the rest keep waiting in order and the count goes up by n; signal is signaln of 1 |
| `KernelEffects.SDeleteReleases` | xinu/sys/common/sdelete.c:25-31 | after the deletion of a semaphore everybody who waited on it can run, and nobody else who could not before; its list is empty and only it changes |
| `KernelEffects.SResetReleases` | xinu/sys/common/sreset.c:27-32 | after a reset everybody who waited can run, and nobody else who could not before; the list is empty, the count is the new one |
| `KernelInv.SCreateFails` | xinu/sys/common/screate.c:36-50 | the wrapping search fails if and only if every semaphore is in use |
| `KernelInv.CreateFails` | xinu/sys/68000/create.c:89-101 | the wrapping search fails if and only if no slot of the process table is free |
| `KernelFrames.StepChanges` | xinu/sys/common/send.c:18-33 | over every step a priority changes only by chprio or creation, a message only by a send to the process, its own receiving or creation, the next of kin only by setnok or creation, a semaphore only by a call for it, its creation or the killing of a waiter |
| `KernelFrames.SCreateExact` | xinu/sys/common/screate.c:21-51 | one formerly unused semaphore, the one returned, gets the count asked for, and nothing else changes; SYSERR exactly for a negative count or a full table |
| `KernelFrames.CountPasses` | xinu/sys/common/screate.c:26-26 | a semaphore lets as many waits pass as its count says, and the next one blocks |
| `KernelFrames.CreateExact` | xinu/sys/68000/create.c:38-82 | one formerly free slot, the one returned, becomes a suspended process of the priority asked for, without message and next of kin; SYSERR exactly in the four cases |
| `KernelFrames.SmallExact` | xinu/sys/common/setnok.c:20-26 | setnok changes one next of kin; taking a message clears its flag; nothing else changes |
| `KernelFrames.KinIsTold` | xinu/sys/common/kill.c:35-35 | the next of kin, if it can take a message, gets the number of the killed process and can run if it waited |
| `KernelSlice.StepKeepsSlice` | xinu/sys/mio/clkinit.c:71-78 | every step keeps: the slice is at most a quantum, and has not run out while a process of the running one's priority is ready |
| `KernelSlice.RivalHasSlice` | xinu/sys/mio/clkinit.c:77-78 | in every state of every run such a process waits for between one tick and a quantum |
| `KernelSlice.SliceExact` | xinu/sys/mio/clkinit.c:77-78 | the clock takes the processor away exactly at the end of a slice with such a process, and gives it to the one of them that has been ready longest, with a whole slice |
| `KernelSlice.RivalRuns` | xinu/sys/mio/clkinit.c:77-78 | with nothing else happening that is after exactly as many ticks as are left of the slice |
| `KernelSlice.EveryTenth` | xinu/sys/mio/clkinit.c:44-47 | nine interrupts of ten only count |
| `KernelSlice.SleepForNothing` | xinu/sys/common/sleep10.c:17-30 | a sleep for no time hands over to such a process, if there is one, and else does nothing |
| `KernelSlice.DeferralNests` | xinu/sys/common/ssclock.c:15-34 | stopclk and strtclk nest; only the last strtclk makes up |
| `KernelEffects.SuspendStops` | xinu/sys/common/suspend.c:24-31 | a ready or running process stops, in state SUSP; nobody else stops or starts |
| `KernelEffects.ResumeReadies` | xinu/sys/common/resume.c:19-25 | a resumed process can run, and nobody else who could not before |
| `KernelInv.ChPrioInv` | xinu/sys/common/chprio.c:25-34 | a changed priority puts a ready process in its new place and lets a better one run |
| `KernelEffects.ChPrioRuns` | xinu/sys/common/chprio.c:25-34 | it stops nobody and starts nobody |
| `KernelEffects.SendReadies` | xinu/sys/common/send.c:24-31 | an accepted message is stored; a process that waits for one, for a limited time or not, can run, and nobody else who could not before |
| `KernelEffects.SendFReadies` | xinu/sys/common/sendf.c:19-28 | the message replaces one not taken; it wakes a receiver without time limit but not one in a timed receive; and it is there afterwards unless the byte that counts forced messages wrapped to 0 |
| `KernelEffects.KillStops` | xinu/sys/common/kill.c:35-53 | a killed process is free, whatever it was doing; nobody else stops or starts |
| `KernelEffects.KillCounts` | xinu/sys/common/kill.c:43 | the count of the semaphore it waited on goes up by one, and no other count changes |
| `KernelInv.RecvTimInv` | xinu/sys/common/recvtim.c:19-29 | a timed receive keeps the invariant if and only if a message is there or the time is not 0 |
| `KernelInv.UnsleepInv` | xinu/sys/common/unsleep.c:20-39 | called by itself, unsleep keeps the invariant if and only if the process is not asleep |
| `KernelRuns.StepLists` | xinu/sys/common/wait.c:27-30 | a semaphore's list changes only by the caller of wait arriving at its end, by a signal, delete or reset of that semaphore releasing from its front, or by a waiter being killed |
| `KernelRuns.WaitersKeepOrder` | xinu/sys/common/signal.c:24-25 | over every run nobody overtakes a process that keeps waiting on a semaphore |
| `KernelRuns.ReleasedInOrder` | xinu/sys/common/signal.c:24-25 | over every run, a step that releases a waiter leaves nobody waiting who was in front of it |
| `KernelSleep.StepSleeper` | xinu/sys/common/insertd.c:19-28 | the exact effect of any step on any sleeper that it neither kills nor sends the message it expects: its remaining ticks go down only with clock ticks, it sleeps on if any are left, and can run if not |
| `KernelSleep.EvictsSleeper` | xinu/sys/common/send.c:28-31 | a sleeper that is killed is free, and one that gets the message it expects can run; neither sleeps on |
| `KernelSleep.WhoCanRun` | xinu/sys/common/ready.c:19-23 | for every call: exactly those can run afterwards who could and are not stopped, or who are started, as the call says; nobody else changes state |
| `KernelSleep.SleepIsExact` | xinu/sys/common/insertd.c:19-28 | a process that sleeps n >= 1 tenths sleeps through the first n - 1 ticks and can run from exactly the n-th, whatever other sleeps, timed receives and wake-ups happen |
| `KernelDefer.DeferredTicksMadeUp` | xinu/sys/common/ssclock.c:35-48 | with the clock routine of the mio board, strtclk leaves the whole sleep queue, processes and keys, as that many single ticks would |
| `KernelDefer.MadeUpIsTicks` | xinu/sys/common/ssclock.c:39-46 | the same for any queue and any number of ticks |
| `KernelDefer.SunDeferredTicks` | xinu/sys/sun350/clkint.s:75-93 | on the sun350 board, which is the one that defers, it is the same if and only if nobody sleeps, the first sleeper has more than the deferred ticks left, or they are enough for everybody to wake late |
| `KernelDefer.SunWakesEarly` | xinu/sys/sun350/clkint.s:88-93 | the failing input: one sleeper with one tick left, one deferred tick |
| `KernelDefer.SunTickQueue` | xinu/sys/sun350/clkint.s:88-93 | one tick of the sun350 board keeps the sleep queue in order |
| `KernelLists.DeltaInserted` | xinu/sys/common/insertd.c:19-28 | insertd gives the new entry its ticks and leaves every other entry its own |
| `KernelLists.DeltaRemoved` | xinu/sys/common/unsleep.c:29-37 | unsleep leaves every other entry its ticks |
| `KernelLists.RemainingMakeUp` | xinu/sys/common/ssclock.c:39-46 | the loop of strtclk takes the deferred ticks off everybody's remaining time, down to none |
| `KernelReady.ReadyKeepsTurn` | xinu/sys/common/insert.c:19-26 | in every step: who stays ready keeps its place among its equals in priority, nobody new comes in front of it, and who is dispatched had nobody of its priority in front of it; only a change of its own priority moves a process |
| `KernelReady.ReadyJoinsAtBack` | xinu/sys/common/insert.c:19-26 | a process that becomes ready does so behind everybody of its priority who was ready |
| `KernelReady.InsertBehind` | xinu/sys/common/insert.c:19-26 | insert changes the order of no two others |
| `KernelReady.DispatchedInOrder` | xinu/sys/68000/resched.c:44-52 | over every run: while a process of the same priority that is to run first is ready, the other is not dispatched |
| `KernelReady.FirstReadyFirstRun` | xinu/sys/68000/resched.c:44-52 | over every run: of two processes of equal priority the one that became ready first is dispatched first |
| `QTable.SpliceTable` | xinu/sys/common/insert.c:22-26 | linking an entry between two neighbours makes one chain one entry longer and leaves all other chains of the shared table alone |
| `QTable.UnspliceTable` | xinu/sys/common/queue.c:37-39 | unlinking an entry makes its chain one entry shorter and leaves all others alone |
| `QTable.EmptyTable` | xinu/sys/common/newqueue.c:18-24 | heads and tails that point at each other are well-formed empty lists |
| `Kernel.Kernel.constructor` | xinu/sys/mio/initialize.c:168-201 | the tables after sysinit are well formed and satisfy the invariant |
| `Kernel.Kernel.NewQueue` | xinu/sys/common/newqueue.c:18-25 | takes the next two entries, as the head and tail of an empty list |
| `Kernel.Kernel.Insert` | xinu/sys/common/insert.c:19-27 | the key-ordered insertion in place is the specified one |
| `Kernel.Kernel.FindKey` | xinu/sys/common/insert.c:19-21 | the search stops at the first entry whose key is not smaller, at the latest at the tail |
| `Kernel.Kernel.Enqueue` | xinu/sys/common/queue.c:18-24 | the process becomes the last of the list |
| `Kernel.Kernel.Dequeue` | xinu/sys/common/queue.c:37-40 | the process leaves its list, wherever in it it is |
| `Kernel.Kernel.GetFirst` | xinu/sys/common/getitem.c:16-19 | the first process of a list, or EMPTY |
| `Kernel.Kernel.GetLast` | xinu/sys/common/getitem.c:33-36 | the last process of the ready list, or EMPTY |
| `Kernel.Kernel.InsertD` | xinu/sys/common/insertd.c:19-29 | the delta insertion in place is the specified one, the next entry's key included |
| `Kernel.Kernel.Unsleep` | xinu/sys/common/unsleep.c:20-39 | refuses a bad process number and a process that is not asleep; else the entry behind inherits its ticks and sltop follows |
| `Kernel.Kernel.Ready` | xinu/sys/common/ready.c:19-23 | a process made ready without rescheduling |
| `Kernel.Kernel.Resched` | xinu/sys/68000/resched.c:25-52 | the whole new state, and the invariant |
| `Kernel.Kernel.Wait` | xinu/sys/common/wait.c:19-32 | the whole new state, and the invariant |
| `Kernel.Kernel.Signal` | xinu/sys/common/signal.c:19-27 | the whole new state, and the invariant |
| `Kernel.Kernel.SignalN` | xinu/sys/common/signaln.c:20-31 | the whole new state after the loop, and the invariant |
| `Kernel.Kernel.SDelete` | xinu/sys/common/sdelete.c:20-33 | the whole new state, and the invariant |
| `Kernel.Kernel.SReset` | xinu/sys/common/sreset.c:21-34 | the whole new state, and the invariant |
| `Kernel.Kernel.SCreate` | xinu/sys/common/screate.c:17-31 | the whole new state, which KernelFrames.SCreateExact describes; fails exactly for a negative count or a full table |
| `Kernel.Kernel.NewSem` | xinu/sys/common/screate.c:36-51 | the wrapping search loop is the specified search, and marks what it finds as used |
| `Kernel.Kernel.Create` | xinu/sys/68000/create.c:34-82 | the table part; fails exactly without stack, for an odd address, a priority below 1 or a full table |
| `Kernel.Kernel.NewPid` | xinu/sys/68000/create.c:89-101 | the wrapping search loop is the specified search |
| `Kernel.Kernel.Resume` | xinu/sys/common/resume.c:17-26 | the whole new state, and the invariant |
| `Kernel.Kernel.Suspend` | xinu/sys/common/suspend.c:17-34 | the whole new state, and the invariant |
| `Kernel.Kernel.ChPrio` | xinu/sys/common/chprio.c:18-36 | the whole new state, and the invariant |
| `Kernel.Kernel.Send` | xinu/sys/common/send.c:17-33 | the whole new state, and the invariant |
| `Kernel.Kernel.SendF` | xinu/sys/common/sendf.c:19-28 | the whole new state, and the invariant |
| `Kernel.Kernel.Receive` | xinu/sys/common/receive.c:16-22 | receive up to where the caller may be switched out |
| `Kernel.Kernel.TakeMsg` | xinu/sys/common/receive.c:22-26 | the rest of receive and recvtim when the caller runs again; recvclr |
| `Kernel.Kernel.RecvTim` | xinu/sys/common/recvtim.c:19-29 | the whole new state of a timed receive up to where the caller may be switched out, the refusal of negative times, and the invariant |
| `Kernel.Kernel.Sleep10` | xinu/sys/common/sleep10.c:15-31 | the whole new state, and the invariant |
| `Kernel.Kernel.SetNok` | xinu/sys/common/setnok.c:17-26 | the whole new state, and the invariant |
| `Kernel.Kernel.KillSend` | xinu/sys/common/kill.c:32 | kill up to the message to the next of kin |
| `Kernel.Kernel.KillRest` | xinu/sys/common/kill.c:35-53 | the rest of kill for a process in any state |
| `Kernel.Kernel.WakeupAll` | xinu/sys/common/wakeup.c:15-19 | every due sleeper is ready, sltop and slnempty describe the first that is left |
| `Kernel.Kernel.ClockIsr` | xinu/sys/mio/clkinit.c:44-78 | one clock interrupt up to a switch by wakeup, or to its end: the whole new state, and the invariant |
| `Kernel.Kernel.ClockRest` | xinu/sys/mio/clkinit.c:77-78 | the time slice, when the interrupted process runs on or again |
| `Kernel.Kernel.StopClk` | xinu/sys/common/ssclock.c:15-18 | clock ticks are deferred |
| `Kernel.Kernel.StrtClk` | xinu/sys/common/ssclock.c:31-50 | strtclk up to a switch by wakeup, or to its end: the whole new state, and the invariant |
| `Kernel.Kernel.StrtClkRest` | xinu/sys/common/ssclock.c:49-50 | the end of the time slice, when the caller runs on or again |
| `Kernel.Kernel.TakeTicks` | xinu/sys/common/ssclock.c:39-46 | the loop over the sleep queue in place is the specified one |
| `IpFragment.AllFit` | xinu/ipnet/common/ip_putp.c:39-69 | nothing longer than the MTU is sent |
| `IpFragment.PutExact` | xinu/ipnet/common/ip_putp.c:25-69 | what fits goes out as it is; with DF set nothing else does; without, every piece but the last carries as many whole eights of bytes as fit, with the header of the datagram |
| `IpFragment.DontFragment` | xinu/ipnet/common/ip_putp.c:34-38 | over any links a datagram with DF arrives whole and as it was but for its time to live if every link is wide enough, and otherwise not at all |
| `IpFragment.PiecesChain` | xinu/ipnet/common/ip_putp.c:44-62 | cutting a datagram, or a fragment of one, yields fragments of it end to end, MF set on all but the end of the datagram |
| `IpFragment.FragmentsTile` | xinu/ipnet/common/ip_putp.c:39-69 | however often a datagram and its fragments cross links of any MTU from 28 up, the pieces tile it |
| `IpFragment.FragmentingEnds` | xinu/ipnet/common/ip_putp.c:39-54 | the loop gets on, and comes to an end, if and only if the link carries at least 28 bytes |
| `IpFragment.IpPutP` | xinu/ipnet/common/ip_putp.c:27-69 | the packets put on the interface, residual slid down in place, are the specified ones; DF suppresses them |
| `IpFragment.IpFSend` | xinu/ipnet/common/ip_fsend.c:23-36 | one fragment carries the header, MF, its offset and its slice of the data |
| `IpFragment.BlkCopy` | libc/common/blkcopy.c:11-15 | a copy down within one buffer is right although the ranges may overlap |
| `IpReassembly.AssembleIsPrefix` | xinu/ipnet/common/ip_fcons.c:35-47 | for any fragments that agree with a datagram, even overlapping or contained ones, the buffer holds its bytes up to the end of the last fragment |
| `IpReassembly.JoinSound` | xinu/ipnet/common/ip_fjoin.c:25-46 | a datagram that leaves ipfjoin is the one that was sent |
| `IpReassembly.WholeIff` | xinu/ipnet/common/ip_fjoin.c:25-46 | on pieces of one datagram, in any number of copies, the completeness walk succeeds if and only if none is missing |
| `IpReassembly.JoinFrees` | xinu/ipnet/common/ip_fjoin.c:25-46 | the entry is freed exactly when there is no gap and either the end is there or there is too much data; otherwise nothing changes |
| `IpReassembly.TooManyFragments` | xinu/ipnet/common/ip_fadd.c:26-37 | the fragment that finds ten queued loses them all, and nothing comes out of that entry again |
| `IpReassembly.PassesOrLost` | xinu/ipnet/common/ip_reass.c:25-58 | a whole datagram passes as it is; a fragment without entry or queue is lost |
| `IpReassembly.WalkIff` | xinu/ipnet/common/ip_fjoin.c:25-36 | for any fragments the walk succeeds if and only if each starts no later than the one before it ends |
| `IpReassembly.ContainedFragmentHidesTheRest` | xinu/ipnet/common/ip_fjoin.c:35-35 | fragments that cover every byte of a datagram and that the walk nevertheless finds incomplete |
| `IpReassembly.PiecesReassemble` | xinu/ipnet/common/ip_fjoin.c:25-44 | while a piece is missing nothing comes out; with the last missing one its queue is gone, and the whole datagram comes out if its data is no more than 4056 bytes, while for 4057 to 4096 the copy overruns the large buffer |
| `IpReassembly.OverrunsIff` | xinu/ipnet/common/ip_fcons.c:30-47 | the copy loop writes past its buffer if and only if some fragment ends beyond the room that both headers leave |
| `IpReassembly.JoinOverrunsIff` | xinu/ipnet/common/ip_fjoin.c:36-44 | a queue that ipfjoin accepts is copied past the end of the large buffer if and only if some fragment ends beyond that room |
| `IpReassembly.EthernetOverrun` | xinu/ipnet/common/ip_fjoin.c:36-36 | three Ethernet fragments of a datagram with 4064 bytes of data that ipfjoin accepts and that overrun the buffer |
| `IpReassembly.TooBigForAll` | xinu/ipnet/common/ip_fjoin.c:36-41 | of a datagram with more than 4096 bytes of data nothing ever comes out, nor overruns |
| `IpReassembly.TwoDatagramsMix` | xinu/ipnet/common/ip_reass.c:43-46 | two datagrams for different protocols that share source and identification are put together to one that nobody sent |
| `IpReassembly.ReassPerDatagram` | xinu/ipnet/common/ip_reass.c:35-78 | the table keeps an independent queue for every datagram that it has room for, and otherwise drops the fragment and changes nothing |
| `IpReassembly.RunPerDatagram` | xinu/ipnet/common/ip_reass.c:35-78 | over every run other traffic does not matter to a datagram |
| `IpReassembly.RoundTrip` | xinu/ipnet/common/ip_fcons.c:30-54 | cut and re-cut by any links and aged by any routers, delivered in any order with duplicates and among any traffic, at most ten fragments in all: the datagram comes out exactly once and as it was but for its time to live if and only if it has at most 4056 bytes of data; up to 4096 the buffer is overrun, beyond that nothing comes out |
| `IpReassembly.NothingWrongComesOut` | xinu/ipnet/common/ip_fcons.c:30-54 | over every run, whatever is lost, repeated, overlapping or out of buffers, fragments that agree with a datagram never yield anything else |
| `IpReassTable.FragQueue.IpFAdd` | xinu/ipnet/common/ip_fadd.c:19-39 | ordered insertion; overflow drains the queue and marks it bogus |
| `IpReassTable.FragQueue.SeeAll` | xinu/ipnet/common/ip_fjoin.c:26-36 | the walk with seeq, in both its ends, finds what the specification says and leaves the queue and its walk position as they were |
| `IpReassTable.FragQueue.CopyData` | xinu/ipnet/common/ip_fcons.c:30-47 | the copy loop into the large buffer, negative lengths included, leaves the specified bytes behind both headers, if they fit |
| `IpReassTable.FragQueue.IpFJoin` | xinu/ipnet/common/ip_fjoin.c:20-46 | the decision, the datagram and the queue afterwards, the drop of one that is too big included, unless the buffer is overrun |
| `IpReassTable.FragQueue.IpFCons` | xinu/ipnet/common/ip_fcons.c:18-60 | the datagram, or none when no large buffer is to be had; the entry is free again; unless the buffer is overrun |
| `IpReassTable.Reassembler.Search` | xinu/ipnet/common/ip_reass.c:35-49 | the one loop finds the datagram's entry, or else the first free one |
| `IpReassTable.Reassembler.IpReass` | xinu/ipnet/common/ip_reass.c:25-78 | the whole table and the result are the specified ones, unless the buffer is overrun |
| `Ports.StepKeepsInv` | xinu/sys/common/ptclear.c:20-37 | every step of every process keeps, on all ports at once: each place free, held by a released sender or taken; each message available or held by a released receiver; nodes conserved; what went in is what came out and what is queued |
| `Ports.RunKeepsInv` | xinu/sys/common/pinit.c:24-36 | so does every run from the initial table |
| `Ports.PortPromises` | xinu/sys/common/psend.c:42-51 | never more than ptmaxcnt messages; messages come out once, first in first out; free and queued nodes add up to all nodes |
| `Ports.ReceiverFindsMessage` | xinu/sys/common/preceive.c:42-43 | a receiver that was released since the last reset finds pthead not NULL |
| `Ports.WaitOnlyWhenDue` | xinu/sys/common/psend.c:33-36 | senders wait only while every place is taken or held, receivers only while every message is |
| `Ports.NeverOutOfNodes` | xinu/sys/common/psend.c:40-41 | the panic cannot happen while the ports were not created for more messages in all than there are nodes |
| `Ports.RunGrows` | xinu/sys/common/ptclear.c:21-22 | over every run the sequence number never falls, and within one epoch the messages sent and received only grow at their ends |
| `Ports.OldWaitersTouchNothing` | xinu/sys/common/psend.c:33-39 | a process inside psend or preceive when its port is reset or deleted never touches a queue afterwards, whatever became of the port |
| `Ports.ClearStartInv` | xinu/sys/common/ptclear.c:20-33 | a reset or delete, up to and with the release of the senders, keeps all this, the nodes of the cleared queue included |
| `Ports.SearchExact` | xinu/sys/common/pcreate.c:26-40 | the wrapping search fails only when no port is free |
| `PortEffects.SendExact` | xinu/sys/common/psend.c:21-54 | with a place left the caller's message goes behind all others and the first receiver is let go; with none left the process waits with its message; other ports are left alone |
| `PortEffects.ReceiveExact` | xinu/sys/common/preceive.c:21-52 | the same for the oldest message and the first sender |
| `PortEffects.ResumeExact` | xinu/sys/common/psend.c:33-54 | a sender that runs again puts its own message behind all others, a receiver takes the oldest, unless the port has changed |
| `PortEffects.CreateExact` | xinu/sys/common/pcreate.c:19-41 | one formerly free port becomes an empty one for as many messages as asked, under a new sequence number; SYSERR exactly for a negative count or without a free port |
| `PortEffects.ClearExact` | xinu/sys/common/ptclear.c:18-37 | who is let go when, and the port before, in and after limbo |
| `PortEffects.TicketsKept` | xinu/sys/common/psend.c:31-54 | over every step each waiting or released process is inside as often as before, but for the one that comes and the one that goes |
| `PortEffects.CarriesWhatWasSent` | xinu/sys/common/psend.c:40-51 | in every state of every run a port has carried, in order, exactly the messages of the sends completed on it since it was created or reset, and given out the first of them |
| `PortEffects.TicketHasCall` | xinu/sys/common/psend.c:12-39 | whoever waits or has been released came with a call of his own, with that message |
| `PortTable.PortTab.constructor` | xinu/sys/common/pinit.c:24-36 | all nodes are linked on the free list and all ports free |
| `PortTable.PortTab.LinkNode` | xinu/sys/common/psend.c:42-51 | the linking in place adds the message behind all others; all other queues keep theirs |
| `PortTable.PortTab.UnlinkNode` | xinu/sys/common/preceive.c:42-50 | the unlinking in place returns the oldest message; its node is free |
| `PortTable.PortTab.Send` | xinu/sys/common/psend.c:21-54 | psend up to its end or to where it blocks |
| `PortTable.PortTab.SendRest` | xinu/sys/common/psend.c:33-54 | the rest of psend when a released process runs; it fails exactly when the port has changed |
| `PortTable.PortTab.Receive` | xinu/sys/common/preceive.c:20-52 | preceive up to its end or to where it blocks |
| `PortTable.PortTab.ReceiveRest` | xinu/sys/common/preceive.c:33-52 | the rest of preceive when a released process runs |
| `PortTable.PortTab.Create` | xinu/sys/common/pcreate.c:18-41 | the whole new table; fails exactly for a negative count or without a free port |
| `PortTable.PortTab.Clear` | xinu/sys/common/ptclear.c:20-32 | the splice in place frees the whole queue, and the disposal function sees every message in order |
| `PortTable.PortTab.ClearRest` | xinu/sys/common/ptclear.c:29-37 | the second semaphore, and the end of limbo |
| `Qsort.Sort` | libc/common/qsort.c:7-17 | for every array and every total preorder the result is sorted and a permutation, with at most floor(log2 n) + 1 activations nested |
| `Qsort.Partition` | libc/common/qsort.c:36-86 | the loop of gotos ends, by the number of unexamined elements, with less, equal and greater parts, and only reorders its range |
| `Qsort.Qs1` | libc/common/qsort.c:19-87 | sorts its range and bounds its recursion |
| `Qsort.LevelsHalf` | libc/common/qsort.c:70-79 | recursing only into the smaller side costs one level per halving |
| `Qsort.AtLeft` | libc/common/qsort.c:41-50 | each outcome of the comparison at the left keeps the parts |
| `Qsort.AtRight` | libc/common/qsort.c:53-68 | each outcome of the comparison at the right keeps the parts |
| `Qsort.LeftOnly` | libc/common/qsort.c:83-84 | the three-way exchange when only the left has elements left keeps the parts |
| `Qsort.QsExc` | libc/common/qsort.c:88-102 | an exchange of two elements |
| `Qsort.QstExc` | libc/common/qsort.c:104-120 | a cyclic exchange of three elements, also when the last two are one |
| `Routes.MatchHashes` | xinu/ipnet/common/rt_hash.c:17-25 | a destination hashes to the chain of every route that it matches, if masks cover the class of their net |
| `Routes.MatchHashesIff` | xinu/ipnet/common/rt_hash.c:17-25 | with a mask that covers the first byte every matching destination hashes to the chain of the route if and only if the mask covers the class of the net |
| `Routes.FreeClassBitMayDo` | xinu/ipnet/common/rt_hash.c:17-25 | a mask with a free class bit under which every matching destination hashes alike although it does not cover the class |
| `Routes.ShortMaskMissesItsChain` | xinu/ipnet/common/rt_hash.c:17-25 | a shorter mask under which that fails |
| `Routes.LookupIsLongestMatch` | xinu/ipnet/common/rt_get.c:21-37 | the search of one chain gives what a search of the whole table would: a live route of greatest mask length, else the default if it is not infinitely far |
| `RouteEffects.PrefixLength` | xinu/ipnet/common/rt_add.c:28-31 | the sort key of a prefix mask is the length of the prefix |
| `Routes.StepKeepsInv` | xinu/ipnet/common/rt_add.c:28-91 | every operation keeps the chains sorted, with one route per net and mask, each where its net hashes to, and every count equal to the references there are |
| `Routes.StepKeepsMasked` | xinu/ipnet/common/rt_add.c:28-91 | while only routes with masks that cover their class are added the table holds no others |
| `Routes.DropInv` | include/route.h:42-45 | a buffer is given back exactly when the last reference to it is dropped |
| `Routes.AddResult` | xinu/ipnet/common/rt_add.c:44-90 | afterwards there is a route for the net and mask, with the metric of the new one or the better of the two |
| `RouteEffects.AddExact` | xinu/ipnet/common/rt_add.c:44-93 | the route for the net and mask afterwards, with gateway, metric, interface and time: the new one if there was none or it is nearer by another gateway, the old one heard of again from the same gateway, else the old one |
| `RouteEffects.AddDefault` | xinu/ipnet/common/rt_add.c:24-41 | a route for the default net takes the place of the default; without a buffer nothing happens |
| `Routes.AddKeepsOthers` | xinu/ipnet/common/rt_add.c:44-90 | every route for another net or mask stays as it was, and none is added |
| `Routes.DelExact` | xinu/ipnet/common/rt_del.c:27-43 | exactly the route for the net and mask is gone, and the result says whether there was one |
| `RouteEffects.DelDefault` | xinu/ipnet/common/rt_del.c:20-26 | deleting the default net takes the default away, whatever the mask |
| `Routes.AgeChainExact` | xinu/ipnet/common/rt_timer.c:25-47 | every route of a chain meets its own fate, whatever happens to the others |
| `Routes.TimerExact` | xinu/ipnet/common/rt_timer.c:22-61 | a route stays if and only if its own turn keeps it; every count still fits |
| `Routes.GoneInTime` | xinu/ipnet/common/rt_timer.c:25-47 | once its time and the time it is held as infinite are over a route is gone, if and only if its time did not count down to exactly 999; if it did it stays for ever |
| `RouteEffects.AgesExactly` | xinu/ipnet/common/rt_timer.c:29-46 | until its time is over a route loses only that; from then on it is gone, or kept as infinitely far for RIP |
| `RouteEffects.HeldForRip` | xinu/ipnet/common/rt_timer.c:31-36 | it is kept exactly with RIP to tell, a finite metric and a step shorter than the hold time |
| `RouteEffects.DefaultAges` | xinu/ipnet/common/rt_timer.c:53-61 | the default route in the same way, with a whole hold time |
| `RouteEffects.GetExact` | xinu/ipnet/common/rt_get.c:29-37 | a route given out has one reference and one use more, and given back one reference less |
| `RouteTable.RtHash` | xinu/ipnet/common/rt_hash.c:13-25 | the class tests and the summing loop |
| `RouteTable.NetMatches` | xinu/ipnet/common/net_match.c:14-26 | the loop with its early return decides the match |
| `RouteTable.MaskKey` | xinu/ipnet/common/rt_add.c:27-30 | the nested loops count the one bits of the mask |
| `RouteTable.Table.constructor` | xinu/ipnet/common/rt_init.c:16-25 | the empty table satisfies the invariant |
| `RouteTable.Table.RtGet` | xinu/ipnet/common/rt_get.c:18-38 | the whole new table and the route given out |
| `RouteTable.Table.RtAdd` | xinu/ipnet/common/rt_add.c:22-93 | the whole new table |
| `RouteTable.Table.SearchKey` | xinu/ipnet/common/rt_add.c:44-58 | the loop of rtadd finds place and duplicate |
| `RouteTable.Table.RtDel` | xinu/ipnet/common/rt_del.c:17-46 | the whole new table, and whether a route was found |
| `RouteTable.Table.RtFree` | include/route.h:42-45 | one reference less; the buffer is free with the last |
| `RouteTable.Table.RtTimer` | xinu/ipnet/common/rt_timer.c:20-65 | the whole new table |
| `RouteTable.Table.AgeOneChain` | xinu/ipnet/common/rt_timer.c:28-47 | the loop that looks again at a route it has just made infinite ends, and leaves the specified chain |
| `RouteTable.AgeAgain` | xinu/ipnet/common/rt_timer.c:31-36 | looking again at a route just made infinite leads where one look would have |
| `Heap.CanonicalUnique` | xinu/sys/common/freemem.c:35-44 | there is one address-ordered, maximally coalesced list for a set of free bytes |
| `Heap.OverlapExact` | xinu/sys/common/freemem.c:29-30 | the two comparisons are true if and only if the request overlaps free memory |
| `Heap.InsertExact` | xinu/sys/common/freemem.c:34-44 | freeing adds exactly the freed bytes and keeps the list canonical |
| `Heap.GetMemExact` | xinu/sys/common/getmem.c:18-44 | first fit: what is handed out was free and no longer is, nothing else changes; fails only when no block is large enough |
| `Heap.GetMemLowest` | xinu/sys/common/getmem.c:18-46 | getmem finds a block whenever there are enough free bytes in a row, and the lowest |
| `Heap.GetStkExact` | xinu/sys/68000/getstk.c:20-44 | last fit, from the high end: likewise |
| `Heap.GetStkHighest` | xinu/sys/68000/getstk.c:20-44 | getstk finds a block whenever there are enough free bytes in a row, and the highest |
| `Heap.StepKeepsInv` | xinu/sys/common/freemem.c:19-46 | over any mix of calls the free list stays canonical and live blocks never overlap free ones or each other |
| `Heap.FreeInv` | xinu/sys/common/freemem.c:19-46 | a block that comes back is always accepted |
| `Heap.EverythingFreedRestores` | xinu/sys/common/freemem.c:19-46 | after any mix of getmem and getstk whose blocks came back in any order the list is identical to the starting list |
| `Heap.FreeStkFreesTheBlock` | include/68000/mem.h:23-26 | freestk frees just the block that getstk handed out |
| `HeapList.HeapList.Get` | xinu/sys/common/getmem.c:17-44 | first fit on the linked headers |
| `HeapList.HeapList.Stk` | xinu/sys/68000/getstk.c:19-44 | last fit on the linked headers |
| `HeapList.HeapList.FreeBlock` | xinu/sys/common/freemem.c:19-46 | search, rejection and both ways of coalescing on the linked headers |
| `TcpTimer.SetExact` | xinu/ipnet/common/tcp_tmset.c:25-49 | one entry per timer; tmleft gives the time asked for; every other timer keeps its own |
| `TcpTimer.ClearExact` | xinu/ipnet/common/tcp_tmclear.c:20-33 | exactly the one timer is gone; every other keeps its time |
| `TcpTimer.TiesAreFifo` | xinu/ipnet/common/tcp_tmset.c:36-41 | a new timer goes behind exactly those that run out no later |
| `TcpTimer.FireExact` | xinu/ipnet/common/tcp_timer.c:43-52 | exactly the timers due within delta fire, and the others have delta less to go |
| `TcpTimer.FireInOrder` | xinu/ipnet/common/tcp_timer.c:43-50 | they fire in the order in which they are due |
| `TcpTimer.FiresWhenSpent` | xinu/ipnet/common/tcp_timer.c:27-54 | over any number of turns, while other timers are set and cleared, a timer fires exactly when the time that the turns count adds up to what it has left |
| `TcpTimer.HowEarly` | xinu/ipnet/common/tcp_timer.c:33-42 | it fires too early by no more than what had passed since the last turn when it was set, and by no more than ten seconds |
| `TcpTimer.EarlyUnlessJustRun` | xinu/ipnet/common/tcp_timer.c:33-42 | over all times and numbers of turns a timer never fires too early if and only if it is set when the timer process has just run |
| `TcpTimer.TimerQueue.TmSet` | xinu/ipnet/common/tcp_tmset.c:17-50 | the list after the duplicate is cleared and the new entry is in its place |
| `TcpTimer.TimerQueue.TmClear` | xinu/ipnet/common/tcp_tmclear.c:17-37 | the list, and how long the timer had been set |
| `TcpTimer.TimerQueue.TmLeft` | xinu/ipnet/common/tcp_tmleft.c:15-29 | the time left, or zero |
| `TcpTimer.TimerQueue.Run` | xinu/ipnet/common/tcp_timer.c:33-53 | one turn of the timer process, clock resets included |
| `TcpOutput.InFlightBound` | xinu/ipnet/common/tcp_xmit.c:36-42 | the loop ends with at most max(before, window + min(smss, swindow)) unacknowledged, and only when all is sent or the window is exceeded |
| `TcpOutput.LoopSendsTheStream` | xinu/ipnet/common/tcp_xmit.c:39-42 | its segments carry the unsent bytes of the stream in order |
| `TcpOutput.Run` | xinu/ipnet/common/tcp_rtt.c:18-46 | over every run with round trips in 0..r: srt <= 8r+7, rtde <= 4r+3, 50 <= rexmt <= max(50, 3r+2), cwnd >= smss > 0 |
| `TcpOutput.SampleBounds` | xinu/ipnet/common/tcp_rtt.c:19-40 | one sample keeps the estimator within those bounds |
| `TcpOutput.EstimatorBounds` | xinu/ipnet/common/tcp_rtt.c:18-46 | the same bounds, spelled out for the end of any run that starts with the initial values |
| `TcpOutput.ConstantRoundTrip` | xinu/ipnet/common/tcp_rtt.c:19-29 | on a path with a constant round trip the estimate is exact from the first sample on, and the deviation falls with every sample until it is below 4 |
| `TcpOutput.SampleExact` | xinu/ipnet/common/tcp_rtt.c:19-40 | a sample moves the estimate towards the measured time and not past it; the timeout is the estimate and twice the mean deviation, at least half a second |
| `TcpOutput.EstimateConverges` | xinu/ipnet/common/tcp_rtt.c:19-29 | from any estimate, equal samples make it exact after as many as it is off in eighths |
| `TcpOutput.NoSampleOfResent` | xinu/ipnet/common/tcp_rtt.c:17-18 | while retransmitting, or with the timer stopped, nothing is measured (section 4.2.3.1 of RFC 1122) |
| `TcpOutput.SlowStart` | xinu/ipnet/common/tcp_rtt.c:42-43 | below the threshold every acknowledgement opens the congestion window by a segment |
| `TcpOutput.AvoidanceIsSlow` | xinu/ipnet/common/tcp_rtt.c:44-46 | from the threshold on a whole window of acknowledgements opens it by at most a segment |
| `TcpOutput.TimeoutShrinks` | xinu/ipnet/common/tcp_rexmt.c:24-29 | a timeout shuts the congestion window to one segment and sets the threshold to half of what was under way, at least a segment |
| `TcpOutput.ThresholdHalves` | xinu/ipnet/common/tcp_rexmt.c:24-29 | n timeouts in a row halve it n times |
| `TcpOutput.AckedStartsOver` | xinu/ipnet/common/tcp_ostate.c:17-26 | in every run, after new data is acknowledged no retries are counted |
| `TcpOutput.TwelveRetries` | xinu/ipnet/common/tcp_rexmt.c:15-18 | without acknowledgements twelve retransmissions come first, and the thirteenth timeout gives up |
| `TcpOutput.GivesUpInTime` | xinu/ipnet/common/tcp_rexmt.c:20-21 | the twelve timers add up to between 171 and 240 seconds (section 4.2.3.5 of RFC 1122 asks for at least 100) |
| `TcpOutput.Output.TcpXmit` | xinu/ipnet/common/tcp_xmit.c:21-46 | the SEND event in its three cases, with the bound on what is in flight |
| `TcpOutput.Output.TcpHowMuch` | xinu/ipnet/common/tcp_howmuch.c:13-21 | the unsent data |
| `TcpOutput.Output.TcpRtt` | xinu/ipnet/common/tcp_rtt.c:17-47 | the whole new estimate and window |
| `TcpOutput.Output.TcpRexmt` | xinu/ipnet/common/tcp_rexmt.c:15-29 | the segment, the timer and the window after a timeout, and the abort |
| `TcpOutput.Output.TcpOState` | xinu/ipnet/common/tcp_ostate.c:17-26 | the output state after new data was acknowledged |
| `Netascii.TransferDecodes` | xinu/apps/common/tftpd.c:433-496 | however a stream is cut into blocks, empty ones included, what is written is the decoding of the whole |
| `Netascii.TextArrives` | xinu/apps/common/tftpd.c:407-411 | a text that the other side encodes arrives as it was |
| `Netascii.BlockDecodes` | xinu/apps/common/tftpd.c:440-496 | one block with the CR held back before it writes what those bytes decode to, up to the CR it holds back itself |
| `Netascii.Writer.WriteBehind` | xinu/apps/common/tftpd.c:430-496 | the byte loop with its flag is the block decoder |
| `Netascii.Writer.Flush` | xinu/apps/common/tftpd.c:267-268 | a CR left over at the end is written |
| `Netascii.Receive` | xinu/apps/common/tftpd.c:252-268 | all blocks and the flush write the decoding of the stream |
| `Checksum.CksumIsOnesComplement` | libc/common/cksum.c:13-17 | for up to 65537 words the sum does not overflow and two foldings give the complement of the ones-complement sum |
| `Checksum.CarryLostBeyond` | libc/common/cksum.c:13-17 | one word more for which that fails |
| `Checksum.OrderIsFree` | libc/common/cksum.c:13-17 | the order of the words does not matter |
| `Checksum.StoredThenZero` | xinu/ipnet/common/udp_send.c:43-45 | storing the result in a zeroed field makes the check give zero, also with 0xffff for zero |
| `Checksum.SegmentChecks` | xinu/ipnet/common/tcp_cksum.c:19-40 | so it does through the pseudo-header and with an odd length |
| `Checksum.SameChecksumIff` | xinu/ipnet/common/tcp_cksum.c:19-40 | two segments have the same checksum if and only if addresses, protocol, length and data add up to the same but for a multiple of 65535 |
| `Checksum.ChangesShow` | xinu/ipnet/common/tcp_cksum.c:19-40 | another protocol, zeros added at the end, or an address that differs in a word (but for 0 and 65535) change it |
| `Checksum.CksumWords` | libc/common/cksum.c:11-17 | the loop over the words |
| `Checksum.SegmentCksum` | xinu/ipnet/common/udp_cksum.c:22-41 | both loops, the padding and the foldings |
| `Spool.WriteExact` | xinu/apps/common/spooler.c:404-575 | however data is split over calls, and wherever a call has to wait for a node, the nodes hold exactly what was written so far and the rest is still to come; all but the last are full; every node is free or in one job; no other job changes |
| `Spool.PackedSize` | xinu/apps/common/spooler.c:539-546 | a job has the nodes that its bytes need if the last one is not empty, and one more for a multiple of 1024 if it is |
| `Spool.GetNodePool` | xinu/apps/common/spooler.c:1189-1212 | taking a node keeps every node on the free list or in exactly one job, and the bytes in use at 1024 times the nodes not free |
| `Spool.ConnectValid` | xinu/apps/common/spooler.c:349-376 | a new job is empty and open; no other changes |
| `Spool.DisconnectValid` | xinu/apps/common/spooler.c:651-661 | the last node is marked, which ends the job and changes nothing else |
| `Spool.TakeExact` | xinu/apps/common/despool.c:106-139 | a turn of the despooler prints the next of the job's bytes and frees their node; it follows a null link if and only if the only node is full and not the end |
| `Spool.DrainExact` | xinu/apps/common/despool.c:69-141 | the loop over a finished job prints all that was left of it, ends at the mark and puts its nodes on the free list in order; the other jobs keep theirs |
| `SpoolRuns.StepKeepsInv` | xinu/apps/common/spooler.c:404-662 | every call and every turn, on any job, keeps for each job: what was printed, what its nodes hold and what waits make up what was written |
| `SpoolRuns.PrintsWhatWasWritten` | xinu/apps/common/despool.c:16-142 | in every state of every run the despooler has printed of each job the beginning of what was written to it, and all of it when it reached the end |
| `SpoolRuns.DisconnectsNullIff` | xinu/apps/common/spooler.c:657-661 | spool_disconnect follows a null pointer if and only if spool_write was never called for the job |
| `SpoolRuns.NoNextIff` | xinu/apps/common/despool.c:102-139 | the despooler follows a null link if and only if a job that has not ended has one node and 1024 bytes not yet printed |
| `SpoolRuns.NewJobFails` | xinu/apps/common/despool.c:102-139 | the inputs: a new job disconnected at once; and one to which a block is written before the despooler looks |
| `Spool.Spooler.SpoolWrite` | xinu/apps/common/spooler.c:438-575 | outcome and contents after one call; what is left to write where it has to wait |
| `Spool.Spooler.CopyLoop` | xinu/apps/common/spooler.c:513-573 | the copy loop over as many nodes as it takes |
| `Spool.Spooler.SpoolDisconnect` | xinu/apps/common/spooler.c:651-661 | the mark, or the null pointer |
| `Spool.Spooler.GetDNode` | xinu/apps/common/spooler.c:1189-1213 | a node from the front of the free list, cleared and counted |
| `Spool.Spooler.RetDNode` | xinu/apps/common/spooler.c:595-624 | a node to the back of the free list, cleared and counted |
| `Spool.Spooler.TakeNode` | xinu/apps/common/despool.c:106-139 | one turn: the bytes for the device, the node freed, the job returned at its end |
| `Spool.Spooler.Despool` | xinu/apps/common/despool.c:69-141 | the device gets exactly what was left of the job |

## Left out

- TCP connection opening and closing, SYN and FIN accounting, urgent data, the MSS option and persist probing; the model begins in ESTABLISHED with the SYN acknowledged.
- The blocking wait loop of `tcpgetspace` and errors of the block; one turn of the loop is modelled.
- The code that wakes readers and writers of a connection, and the devices above it.
- IP options, ICMP errors, header checksums of fragments, the reassembly timer, and running out of buffers while fragmenting.
- Completeness of reassembly for fragments contained in earlier ones: only soundness and the exact condition of the walk are stated.
- `numproc`, `xdone`, closing a killed process's devices and releasing its stack; stacks, registers and names in `create`.
- KernelInv.StepKeepsInv: a receiver that has to wait in `recvtim(0)`, and `unsleep` called by itself on a sleeper, are excluded as steps because they break the invariant (`KernelInv.RecvTimInv`, `KernelInv.UnsleepInv`); `sleep` is its calls of `sleep10`; `setdev` and calls that only read are not steps.
- Overflow of a semaphore's count after 2^31 calls.
- KernelDefer.SunTickQueue: the sleep queue's share of the sun350 clock routine; its time slice and leds are not modelled.
- Ports.StepKeepsInv: semaphores are counts with a list of waiters, as `Kernel` proves them to be; a process that is killed after it was released takes its place or message with it, so that only waiting processes are killed in the model. Disposal functions do not block or use ports, and `screate` finds a semaphore.
- PortTable.PortTab.Send: a message equal to SYSERR cannot be told from a failure by the original's callers.
- Qsort.Partition: elements are exchanged whole, not byte by byte.
- Route addresses whose first byte is 248 or more, for which the hash uses an unset variable; notices to the RIP process; the table's mutex; the order in which `mkpool` hands out buffers.
- IpReassTable.FragQueue.CopyData: a copy past the end of the large buffer, and what that destroys; callers keep to queues that fit (`IpReassembly.OverrunsIff`).
- IpReassTable.FragQueue.IpFJoin: a queue whose copy would run past the end of the large buffer (`IpReassembly.JoinOverrunsIff`).
- IpReassTable.FragQueue.IpFCons: a queue whose copy would run past the end of the large buffer (`IpReassembly.OverrunsIff`).
- IpReassTable.Reassembler.IpReass: a fragment that completes such a queue.
- Heap sizes near 2^32, where an address plus a size wraps; stacks whose size is 4 mod 8, which `getstk` and `freestk` round differently; the size word that `getstk` writes into the stack.
- TcpTimer.TimerQueue.TmSet: the list is a sequence, not linked records, and the process that waits for it is not modelled; nor is the delivery of messages to ports that are full.
- TcpOutput.Output.TcpXmit: the timers that are set are results of the method.
- Checksum.SegmentCksum: one method for the TCP and the UDP routine, which differ in the protocol number; UDP lengths above 32767, which the original holds in a signed short.
- Spool.Spooler.SpoolWrite: a write that has to wait for a node returns, and goes on as another call; the last free node kept for the job being printed; writing to a job after its end.
- SpoolRuns.StepKeepsInv: calls are atomic but for waiting for a node, jobs may be printed in any order, job numbers do not come round (after 9999 jobs) while in use; removing jobs on request of a user is not a step. The free list and the chains are sequences of node numbers.
- Spool.Spooler.Despool: waiting for a node to fill; `SpoolRuns` has it as turns that come later.
- Names in jobs, job listings, device drivers, Ethernet, ARP, RIP, DNS, SNMP, the shell and the other applications.
- The 80960 copies of `create`, `getstk` and `resched`, and the remaining string routines of the library.
