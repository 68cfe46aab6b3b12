# egdod: a verified model of its core

egdod lets a controller run commands on, and copy files to and from, agents that it has
approved by public key; on bare hardware the agent runs under its own PID 1. This project
models the parts of it whose correctness is not visible in any one function, and proves
what they promise.

Each module names the source it models in its first lines.

* **Exec, end to end.** `ExecPipeline` is the agent's side as interleaved steps: the
  child's pipes, two pumps, the sixteen-slot channel, the writer, the clock, and the main
  task, which reaps, drains, joins and reports. `Wire` and `Postcard` are the framing and the
  message bodies, `ExecReceiver` the controller's loop. `ExecEndToEnd` puts them together:
  what an accepted exit status says about the bytes the child wrote, in every
  interleaving and wherever the stream is cut. `ExecHistory` tells a run from its steps
  alone, and `ExecExample` has runs that there are.
* **PID 1.** `Supervisor` is the link supervisor with everything outside it free to act
  between any two of its actions; `KmsgRelay` is the log relay over its one buffer.
* **Sessions and the gate.** `Sessions` interleaves dials, closes, accept tasks, close
  watchers, endpoint rebuilds, approvals, routing and the agents' half of the gate;
  `SessionRuns` has what holds in every run.
* **Durable state.** `Approved` is the approved text file, `Pending` and `PendingOrder`
  the bounded pending list, `Admissions` the calls over both and their runs,
  `AtomicWrite` and `AtomicRuns` temp-then-rename among processes and threads.
* **Files.** `Transfer` is the sender's loops and the staged, verified receiver, with any
  I/O step free to fail.
* **ssh.** `Calendar` and `Stamp` are the expiry stamp, `AuthorizedKeys` the merge, and
  `KeyLine` the line it adds and the key that line is found by again.
* **Derived link.** `DerivedLink` is the derivation, its printer in Rust and its reader
  in C. `Lines`, `Utf8`, `Hex` and `Prelude` are shared.

Concurrent parts are state machines on values: `Enabled`, `Apply`, and `After`, which
gives where a sequence of steps leads; a theorem about `After` is about every run. The
main theorems speak of the steps of the run, not of what the state has recorded about
itself, and for each machine there are lemmas that nothing stands in the way of the steps
that matter. Code that updates things in place is written as classes and methods with
loops, and each method is tied to a function that the lemmas are about. What the outside
does is an input where a contract depends on it, and otherwise a nondeterministic choice;
counters of failed operations, which only the outside moves, let a contract also say that
nothing else makes a call fail.

Some promises hold only under a condition. Each of these is stated as an
if-and-only-if on what is known before the call:

* A `switch_root` whose move fails breaks the main loop's invariant exactly when the link
  is Bluetooth and the fork that follows works: an agent then runs there
  (`Supervisor.Init.SwitchRoot`, `Supervisor.Init.Turn`, and the failure itself in
  `Supervisor.Init.FailedMoveOnBluetooth`).
* The exit of a process behind the link is answered by a relink in the same turn exactly
  unless a switch request is present, which drops it (`Supervisor.Init.Turn`).
* Two threads of one process writing the same file at once share a staging name. Beside
  writes that have put out all their bytes, one more keeps every later read whole exactly
  if there are none (`AtomicWrite.WholeIffAlone`). The status file holds a lock across
  its write; the pending list written by concurrent accepts does not.
* A dial judged while the approved list cannot be read is recorded as pending even if the
  key is approved (`Admissions.BlindDial`); an approval whose pending entry cannot be
  dropped leaves it in both lists (`Admissions.UnforgottenApproval`).
* `approve` reads the list twice, and treats a failure of the second read as an empty
  list: earlier approvals are then lost (`Admissions.LostList`).
* If the clock goes back, a full pending list can evict the key just recorded
  (`PendingOrder.KeptWhen`, and `Pending.FullListKeeps` for a list within its limit).
* The key of a public key's line is found again in authorized_keys exactly when ASCII
  white space, or the end of the line, parts it on both sides, or it is another field
  too (`KeyLine.KeyFoundWhen`). A vertical tab or any other white space on either side of
  the key loses it, and a rerun then stacks a second line
  (`AuthorizedKeys.RerunIsIdempotentWhen`); elsewhere in the line it does no harm.
* From the year 10000 on the expiry stamp is longer than thirteen characters
  (`Stamp.UtcShape`).
* `civil_from_days` overflows only in its first addition (`Calendar.CivilFromDays64`), and
  for no instant the clock can hold (`Stamp.StampNeverOverflows`).
* Flushing an unfinished log line is invisible only at a multiple of the record size,
  which is why the buffer must be one (`KmsgRelay.FlushEarlyOnly`).

The comment on `unique_tmp` says that a name unique to the process keeps writers apart;
the code is followed here, and it does so between processes only.

## Model

| member | source | states |
|---|---|---|
| `Wire.ReadMsgOpt` | src/proto.rs:170-186 | one read of the stream is `ReadOne` on its unread bytes: a message, a clean end (also inside the length header), or an error |
| `Wire.WriteMsg` | src/proto.rs:144-156 | an accepted message puts exactly its frame on the stream, a refused one nothing, a failing write at most a prefix |
| `Wire.ReadBackPrefix` | src/proto.rs:144-186 | cut any encoded message sequence at any byte: the reader yields exactly the messages whose frames are complete, and ends cleanly exactly when end of file leaves fewer than four bytes |
| `Wire.CompleteIsTheCut` | src/proto.rs:144-186 | the complete frames and the leftover are exactly where the cut falls |
| `Wire.ReadBack` | src/proto.rs:144-186 | any sequence of accepted messages is read back identically |
| `Wire.ReadTorn` | src/proto.rs:144-186 | whole frames followed by part of one more never yield anything but a prefix of the whole ones |
| `Postcard.VarintRoundTrip` | src/proto.rs:56-73 | a varint in front of anything reads back, with that rest, within its width and last-byte limit |
| `Postcard.ExecFaithful` | src/proto.rs:56-73 | every exec frame that `write_msg` accepts decodes to itself |
| `Postcard.ExecAccepts` | src/proto.rs:56-73 | an output chunk, an exit status and the truncation mark always fit a message |
| `Postcard.AdmissionFaithful` | src/proto.rs:26-30 | an admission decodes to itself |
| `ExecReceiver.TakeFrame` | src/proto.rs:247-291 | a frame is charged before it is written: it is delivered whole to its own sink, or the stream holds a refusal or is over the ceiling |
| `ExecReceiver.RecvExecOutput` | src/proto.rs:247-291 | the sinks only ever get a prefix of what arrived and never more than `max` together; with unbroken sinks the result is exactly the verdict on the whole stream |
| `ExecPipeline.StepKeepsInv` | src/agent.rs:216-337 | every step of child, pumps, channel, writer, clock and main task keeps the invariant: nothing read is reordered or duplicated, and nothing is lost unless a pump was aborted or the stream broke |
| `ExecPipeline.RunKeepsInv` | src/agent.rs:216-337 | so does every run |
| `ExecEndToEnd.ReceivedPrefix` | src/agent.rs:216-273 | the frames read off any prefix of the stream, torn frame included, are a prefix of those sent |
| `ExecHistory.SideTold` | src/agent.rs:308-330 | in every run, a pipe's bytes are those written to it by the run's steps, and its close or read error is one of them |
| `ExecHistory.MainTold` | src/agent.rs:216-279 | the status is that of the child's exit in the run, and the frame count and the clock are exact |
| `ExecHistory.Timely` | src/agent.rs:264-306 | in every run, a drain window can run out exactly from two seconds after it began, and joining the writer be given up exactly from fifteen seconds after draining ended |
| `ExecHistory.DrainGoesOn` | src/agent.rs:281-306 | when a drain window runs out, another follows exactly if a frame was finished in it or one is being sent and fifteen seconds have not passed since the child was reaped; otherwise the pumps are aborted and the output counts as cut |
| `ExecEndToEnd.OkMeans` | src/agent.rs:216-337 | for every interleaving and every cut: an accepted status is the code the child exited with, or 128 and its signal; each output is a prefix of what was written to its pipe; both fit under `max`; and without a truncation mark each is everything written before the pipe was closed, or all that was read before a read error |
| `ExecEndToEnd.ReceiveRun` | src/proto.rs:247-291 | the same of the receiver's own result and sinks, run on any prefix of the stream of any run |
| `ExecEndToEnd.OkWhen` | src/agent.rs:216-273 | once the whole stream has arrived, it is accepted exactly when a status was reported and the outputs fit |
| `ExecEndToEnd.StreamShape` | src/agent.rs:216-273 | every stream is output frames, at most one truncation mark, at most one exit status, which is the child's; or a refusal alone; a write that broke was of output or of the report then due |
| `ExecEndToEnd.SilenceMeans` | src/agent.rs:216-306 | in every run that ended without a status on the stream, the child never ran or could not be waited for, a write broke, or the writer was still at work fifteen seconds after draining ended |
| `ExecEndToEnd.DrainBounded` | src/agent.rs:281-306 | draining takes at most eight windows and answers "not cut" only when both pumps returned by themselves with all they read in the flow |
| `ExecExample.Succeeds` | src/agent.rs:216-273 | for every output of one chunk and every status there is a run whose stream is exactly that output and that code, or 128 and that signal |
| `ExecExample.CanEnd` | src/agent.rs:254-306 | from every reachable state in which the child has exited, the main task can come to its end by itself and the clock, however the pumps and the writer are stuck |
| `Calendar.YearStartStep` | src/ssh.rs:159-169 | the reference day count has years of 365 or 366 days by the leap rule |
| `Calendar.DayNumberStep` | src/ssh.rs:159-169 | the reference day count is exact: the next date has the next number |
| `Calendar.DayNumberOrder` | src/ssh.rs:159-169 | and it respects the order of dates |
| `Calendar.CivilIsRight` | src/ssh.rs:159-169 | for every day number the code gives a date that exists and has that number |
| `Calendar.CivilFromDays64` | src/ssh.rs:159-169 | on 64-bit integers and 32-bit casts, with every operation checked to stay in range: the first addition overflows or nothing does, and then the date is that of the unbounded computation |
| `Calendar.CivilInverts` | src/ssh.rs:159-169 | every Gregorian date comes back from its number, so the code is a bijection |
| `Calendar.CivilEpoch` | src/ssh.rs:159-169 | day zero is 1970-01-01 |
| `Calendar.CivilFollowsTheCalendar` | src/ssh.rs:159-169 | the day after is the calendar's next day, by the month lengths of section 5.7 and the leap years of Appendix C of RFC 3339 |
| `Calendar.CivilOrder` | src/ssh.rs:159-169 | dates are in order exactly as their numbers are |
| `Stamp.UtcShape` | src/ssh.rs:151-157 | a stamp is twelve digits and `Z` exactly before the year 10000 |
| `Stamp.UtcRoundTrip` | src/ssh.rs:151-157 | it parses back to the instant rounded down to the minute |
| `Stamp.UtcBeforeEpoch` | src/ssh.rs:151-157 | an instant before 1970 is stamped as the epoch |
| `Stamp.LexIsNumeric` | src/ssh.rs:151-157 | digit strings of one length compare as their numbers |
| `Stamp.UtcOrder` | src/ssh.rs:151-157 | string order on stamps is time order on minutes |
| `Stamp.StampNeverOverflows` | src/ssh.rs:151-157 | for every 64-bit count of seconds the machine arithmetic gives the date in the stamp |
| `AuthorizedKeys.CopyOthers` | src/ssh.rs:184-199 | the loop over one reused buffer writes exactly the lines that do not carry the key, each closed; on an error, a prefix of them |
| `AuthorizedKeys.Merge` | src/ssh.rs:174-204 | a merge that reports success wrote exactly the merged file; one that does not met an error and wrote a prefix of it |
| `AuthorizedKeys.LinesOfJoined` | src/ssh.rs:174-204 | splitting into lines is the inverse of joining them |
| `AuthorizedKeys.MergedLines` | src/ssh.rs:174-204 | the merged file read back is the other lines byte for byte in order, a missing final newline added, then the new line; none of the others carries the key |
| `AuthorizedKeys.OneCarrier` | src/ssh.rs:171-204 | exactly one line carries the key, the last |
| `AuthorizedKeys.MergeTwice` | src/ssh.rs:171-204 | merging one line and then another is merging the other alone |
| `AuthorizedKeys.RerunIsIdempotentWhen` | src/ssh.rs:171-204 | a rerun changes nothing exactly when the line carries its own key |
| `AuthorizedKeys.UncarriedStacks` | src/ssh.rs:171-204 | a line that does not is stacked by every rerun |
| `KeyLine.CarriesText` | src/ssh.rs:191-193 | on UTF-8 text, the byte-wise field test is membership among the text's ASCII-parted fields |
| `KeyLine.LineHolds` | src/ssh.rs:145-147 | the line is the options as given, `,expiry-time=`, the expiry in quotes, a space, and the public key as given |
| `KeyLine.LineExpires` | src/ssh.rs:145-157 | up to the year 9999, the stamp read off the line is the instant to the minute |
| `KeyLine.Located` | src/ssh.rs:141-143 | every line that has a key has it as its second word, at a place with white space before it and white space or the end after it |
| `KeyLine.KeyFoundWhen` | src/ssh.rs:141-147 | for every such line, whatever its words, gaps and script: the authorized line carries the key exactly when ASCII white space or the end parts it on both sides, or it is another field too |
| `KeyLine.VerticalTabLoses` | src/ssh.rs:141-147 | a vertical tab between key and comment loses the key |
| `KeyLine.RenewsInPlace` | src/ssh.rs:141-204 | a key so parted is renewed in place: of two runs with two expiries only the last line stays |
| `KmsgRelay.KmsgLine` | boot/init.c:176-186 | one line goes out as its records of at most 900 bytes |
| `KmsgRelay.FinishedLines` | boot/init.c:188-213 | the scan sends every finished line and points at the unfinished one |
| `KmsgRelay.KeepOpenLine` | boot/init.c:188-213 | a full buffer is flushed or the unfinished line moved to the front; either way there is room again |
| `KmsgRelay.Relay` | boot/init.c:188-213 | however reads split the input and are interrupted, and with writes succeeding, the records written are those of the input; `read` is never asked for zero bytes |
| `KmsgRelay.FlushEarly` | boot/init.c:188-213 | an unfinished line may be flushed at a multiple of 900 bytes without changing the records |
| `KmsgRelay.FlushEarlyOnly` | boot/init.c:188-213 | and nowhere else |
| `KmsgRelay.RecordsConserve` | boot/init.c:176-213 | every record is tagged, non-empty and at most 900 bytes, and together they carry the input in order but for its newlines |
| `Supervisor.Init.Fork` | boot/init.c:77-86 | a new process under a pid never used before, or -1 when the fork fails; either way the attempt is on record |
| `Supervisor.Init.Spawn` | boot/init.c:77-86 | the same where either may happen |
| `Supervisor.Init.Stop` | boot/init.c:119-125 | the process is gone afterwards, but it and others may act until then |
| `Supervisor.Init.DhcpUp` | boot/init.c:377-386 | a client is started, and stays recorded unless it has exited |
| `Supervisor.Init.WaitCarrier` | boot/init.c:429-436 | succeeds exactly if the carrier comes; a daemon seen to exit is reaped and forgotten |
| `Supervisor.Init.StationUp` | boot/init.c:438-449 | with a device and credentials a supplicant is started on the version on disk, which is the one called tried, and the link is up exactly if it joins; a failed attempt leaves no daemon behind |
| `Supervisor.Init.AccessPointUp` | boot/init.c:465-504 | with a device and a derivation hostapd is started, and the link is up exactly if it comes up; with no writer alive the recorded baseline is the version on disk |
| `Supervisor.Init.BluetoothUp` | boot/init.c:516-546 | with a controller the three processes are started in order; the helper may write before the baseline is taken |
| `Supervisor.Init.BringDown` | boot/init.c:559-567 | everything behind the link is stopped or told, and nothing recorded is forgotten |
| `Supervisor.Init.StopBluetooth` | boot/init.c:582-586 | helper and both daemons are gone |
| `Supervisor.Init.LeaveBle` | boot/init.c:606-619 | the way off Bluetooth leaves everything still running recorded |
| `Supervisor.Init.IpLink` | boot/init.c:588-604 | the link is wired, else a known network, else the access point, exactly as the outside allows; which processes are started on the way, in order, and on which credentials |
| `Supervisor.Init.PromoteFromBle` | boot/init.c:606-619 | which link comes of it, exactly; one that stands has missed no credentials although the helper was alive throughout, and replaced ones under an access point are reported |
| `Supervisor.Init.Provision` | boot/init.c:621-630 | when nothing else came up, Bluetooth is tried with every process it starts recorded |
| `Supervisor.Init.BringUp` | boot/init.c:621-630 | the whole ladder: which link, which processes in order, on which credentials; from a dead agent, the access point's baseline is exactly the version just tried |
| `Supervisor.Init.SwitchRoot` | boot/init.c:668-697 | the loop invariant survives exactly unless the move fails on Bluetooth and the fork works; refused requests change nothing, others kill the agent |
| `Supervisor.Init.FailedMoveOnBluetooth` | boot/init.c:687-690 | from every loop head on Bluetooth, that input leaves an agent there and the invariant false |
| `Supervisor.Init.FailedMoveExample` | boot/init.c:687-690 | and booting with nothing but Bluetooth leads to such a loop head |
| `Supervisor.Init.Relink` | boot/init.c:699-705 | kills the agent, goes down the whole ladder, starts an agent unless on Bluetooth, and establishes the loop invariant; on the access point a supplicant was started on the version just tried |
| `Supervisor.Init.ReapOne` | boot/init.c:757-773 | reaping any exited child keeps the loop invariant; the flags say exactly whether it was behind the link |
| `Supervisor.Init.Reap` | boot/init.c:757-773 | so they do for any number of children: lost or provisioned exactly when daemon, bluetoothd or dbus was reaped; a reaped agent is started again, and nothing else is |
| `Supervisor.Init.Decide` | boot/init.c:776-801 | takes exactly the source's branch, keeps the invariant, and does what the branch says: a relink goes down the whole ladder, a promotion ends with an agent, resting changes nothing |
| `Supervisor.Init.Turn` | boot/init.c:750-804 | one turn keeps the invariant exactly unless a switch request fails its move on Bluetooth and the fork works; without a request, newer credentials relink and a supplicant is started on them; an exit behind the link goes unanswered exactly when a request is present that does not end the loop; a due retry promotes from Bluetooth and relinks a lost carrier; a missing or exited agent is started again |
| `Supervisor.Init.constructor` | boot/init.c:740-749 | boot goes down the whole ladder and establishes the invariant |
| `Supervisor.Init.Run` | boot/init.c:750-804 | the invariant holds at every loop head of every run, up to a failed move on Bluetooth: every process not told to stop is recorded, no credentials were missed, no agent on Bluetooth |
| `Supervisor.OneAgent` | boot/init.c:740-804 | then at most one agent exists, and none when none is recorded |
| `Supervisor.StillThere` | boot/init.c:606-619 | a version already known that is on disk now was there all along |
| `Sessions.NoticeEvictsOnlyItself` | src/controller.rs:283-301 | the close watcher removes its own entry and no other, although stable ids are reused |
| `Sessions.MapIsRight` | src/controller.rs:258-301 | once watchers have caught up, the map holds a peer exactly when its latest connection is open |
| `Sessions.Pick` | src/controller.rs:428-442 | the collected matches decide: nobody connected, no match, several and how many, or the one peer that matches and its connection |
| `Sessions.PickByFullKey` | src/controller.rs:428-442 | naming a whole key picks that agent or nobody |
| `Sessions.PickAny` | src/controller.rs:428-442 | the empty selector and `any` pick the only connected agent, if there is one only |
| `Sessions.PickByPrefix` | src/controller.rs:428-442 | anything else picks the connected agent whose key begins with it, if one only does |
| `Sessions.StepKeepsInv` | src/controller.rs:179-304 | every step of every party keeps the registry and gate invariants |
| `SessionRuns.LatestTold` | src/controller.rs:258-267 | in every run, the registry's idea of a peer's latest connection is the last one the steps inserted since the last rebuild |
| `SessionRuns.RegistryTheorem` | src/controller.rs:179-301 | in every run, once watchers have caught up: the map holds a peer exactly when the connection last inserted for it since the last rebuild has not been closed, and that is the one it holds |
| `SessionRuns.WatchersCatchUp` | src/controller.rs:283-301 | from every state the watchers can catch up by themselves |
| `SessionRuns.DialIsListed` | src/controller.rs:234-267 | whatever else is going on, an approved peer that dials is listed, over an older connection if it has one, and nobody else's entry moves |
| `Sessions.ReadsWhatWasSent` | src/agent.rs:150-153 | off any part of the admission stream the agent reads `Approved` exactly when that was sent and all of it has arrived |
| `SessionRuns.GateTheorem` | src/agent.rs:112-153 | in every run, a handled request was routed over the latest connection of its peer, which was on the approved list when that connection was judged, and the agent had read its admission after that |
| `SessionRuns.RequestGetsThrough` | src/controller.rs:395-426 | a request for a listed peer can be routed over its connection, whose agent can read its admission and handle it |
| `Approved.FieldMeans` | src/state.rs:153-162 | whatever the indent, later fields or comment, the first word is what a line offers |
| `Approved.Split` | src/state.rs:153-162 | every line is of that form |
| `Approved.LineKeys` | src/state.rs:153-167 | a line contributes the key that its first word parses to and no other; blank, comment and unparseable lines none |
| `Approved.KeyAnywhere` | src/state.rs:153-167 | a key's own text, indented and followed by other fields or a comment, is that key |
| `Approved.KeysStep` | src/state.rs:152-170 | a line ended by a newline, or by a return and a newline, contributes its own key and no other |
| `Approved.ReadApproved` | src/state.rs:146-170 | the loop computes the keys of the file; missing is empty, unreadable an error |
| `Approved.KeysClose` | src/state.rs:178-181 | adding a missing final newline changes no key |
| `Approved.ApproveAdds` | src/state.rs:173-186 | for any text, the old bytes stay as a prefix and the keys become the old ones and the new one |
| `Pending.SortByLastSorts` | src/state.rs:216-220 | the list is reordered into last-seen order and otherwise unchanged |
| `Pending.TrimDropsOldest` | src/state.rs:216-220 | at most 256 stay, what goes is exactly the rest, and everything dropped was last seen no later than anything kept |
| `PendingOrder.RankIsPlace` | src/state.rs:216-220 | the stable sort puts every entry after exactly those that are older, or as old and further forward |
| `PendingOrder.KeptWhen` | src/state.rs:196-222 | for any list, over-long and with duplicates included, a recorded key is present afterwards exactly when enough entries precede one of its own |
| `Pending.FullListKeeps` | src/state.rs:196-222 | for a list within its limit: exactly when it was there, there is room, or some entry is no newer |
| `Pending.ForgetRemoves` | src/state.rs:224-233 | exactly the entries of that key go |
| `Admissions.Store.RecordPending` | src/state.rs:196-222 | the search and update loop is `Record`; it fails only on an unreadable list or a failed write, and then changes nothing |
| `Admissions.Store.ForgetPending` | src/state.rs:224-233 | likewise `Forget` |
| `Admissions.Store.Approve` | src/state.rs:173-186 | with sound files and no failure it is its step: a present key changes nothing, a new one extends the file and leaves the pending list; what each failure leaves |
| `Admissions.Store.Accept` | src/controller.rs:234-255 | with sound files and no failure it is its step; admitted exactly when the list was read and has the key, otherwise the dial is recorded |
| `Admissions.RecordHolds` | src/state.rs:196-222 | after a dial: unique, bounded, present, counted once more, others as they were |
| `Admissions.RunKeepsGood` | src/state.rs:173-233 | over every serialised run with a steady clock: unique, at most 256, none newer than the clock, pending and approved disjoint |
| `Admissions.RunApproves` | src/state.rs:146-186 | after any run a fresh read gives the initial keys and those approved |
| `Admissions.DialIsHeld` | src/state.rs:196-222 | the key just held is there with this dial's time; at most one other goes, and it is an oldest |
| `Admissions.ApprovalForgetsOnlyIt` | src/state.rs:173-186 | an approval takes its own key from the pending list and nothing else |
| `Admissions.AttemptsAreDials` | src/state.rs:196-222 | in every steady run from any sound list, every entry was there before and has counted every dial of the run on top, or began at one dial and counts exactly the dials since; either way it was held at every moment |
| `Admissions.BlindDial` | src/controller.rs:236-246 | a dial judged without the list breaks disjointness exactly when its key is approved |
| `Admissions.UnforgottenApproval` | src/state.rs:183-185 | an approval that could not forget breaks it exactly when the key was pending |
| `Admissions.LostList` | src/state.rs:178-183 | earlier approvals survive exactly when the second read worked or there were none |
| `AtomicWrite.StepKeepsInv` | src/state.rs:352-364 | with at most one write per process, every step keeps published files whole and untouched |
| `AtomicWrite.ReadsAreWhole` | src/state.rs:352-364 | then every finished read, in every interleaving, saw one complete body that some writer supplied |
| `AtomicRuns.ReadsAreCurrent` | src/state.rs:352-364 | exactly the body most recently renamed into place when the reader opened the file, told from the steps alone |
| `AtomicRuns.LockedReadsAreCurrent` | src/controller.rs:60-69 | so it is for every run under the lock of the status file |
| `AtomicRuns.WriteThenRead` | src/state.rs:352-364 | from any state a writer of an idle process can put any body in place, and any reader can then read it |
| `AtomicWrite.LockedIsExclusive` | src/controller.rs:60-69 | a lock held across the write makes every run such a run |
| `AtomicWrite.OverlapTears` | src/state.rs:352-364 | from any sound state, a write begun beside a finished one of its process can leave the next reader with an empty file |
| `AtomicWrite.SharedStagingTears` | src/state.rs:352-364 | reached for any two non-empty bodies, and nobody supplied the empty file |
| `AtomicWrite.WholeIffAlone` | src/state.rs:352-364 | at the guard: beside finished writes only, every later read in every run is whole exactly if the write began alone in its process |
| `Transfer.StatAndHash` | src/proto.rs:194-218 | permission bits, length and digest of all that a regular file holds; anything else is refused unread |
| `Transfer.SendFileBody` | src/proto.rs:220-237 | a body reported sent is the whole file; otherwise a prefix went out |
| `Transfer.EnsureFreeSpace` | src/proto.rs:418-430 | room exactly when no blocks are reported or the exact product is enough: for a 64-bit length, saturating loses nothing |
| `Transfer.CreatePart` | src/proto.rs:390-411 | a name nothing had, next to the destination and other than it; or nothing is created and an operation has failed |
| `Transfer.Drain` | src/proto.rs:331-352 | in every state the staging file holds at most `len` bytes and nothing else changes; at most a chunk over `len` is taken |
| `Transfer.Land` | src/proto.rs:370-380 | mode, then the one rename; or things are as before |
| `Transfer.RecvFileBody` | src/proto.rs:300-381 | Ok: the destination holds exactly what arrived, of the announced length, digest and mode; Err: no file has changed but a staging file whose unlink failed; until the rename the destination was untouched in every state; a header over ceiling or room reads and stages nothing; missing directories are made only for a header within the ceiling; unless an operation failed or eight staging names were taken, Ok exactly when the header is sound |
| `Hex.EncodeReads` | src/proto.rs:439-446 | each byte is its own two digits, high one first |
| `Hex.EncodeInjective` | src/proto.rs:439-446 | different bytes print differently |
| `DerivedLink.DerivedIsUsable` | src/link.rs:37-58 | for every hash value the two addresses differ and are usable by section 2.1 of RFC 3927, and the port is in the dynamic range of section 6 of RFC 6335 |
| `DerivedLink.DerivedFrom` | src/link.rs:41-58 | two derivations agree in ssid, key, target or port exactly when the hash bytes behind it do, modulo its range |
| `DerivedLink.DerivedController` | src/link.rs:45-56 | the controller's last octet is its own hash byte's unless that is the target's; then the next one |
| `DerivedLink.DerivedReaches` | src/link.rs:37-58 | every usable pair of ends and every port comes from some hash |
| `DerivedLink.Field` | boot/init.c:451-463 | the scan finds the first line with that key and copies its value and a terminator exactly when both fit; otherwise the buffer is untouched |
| `DerivedLink.RenderReads` | boot/init.c:451-463 | reading back any list of printable fields is looking it up |
| `DerivedLink.InitReadsLink` | src/link.rs:75-80 | for every hash value, init finds under `ssid`, `target`, `controller`, `port` and `prefix` exactly what was derived for that name, whole and within its buffer |
| `DerivedLink.InitDials` | boot/init.c:470-490 | port and prefix mean what was printed, and the address to dial fits its buffer |
| `DerivedLink.DottedReads` | src/link.rs:75-80 | a printed address is four decimal numbers parted by dots, the address in order |

## Left out

- Network endpoints, path labels, the pipe splice and the command line (src/net.rs, src/pipe.rs, src/main.rs): `splice` is taken to be a FIFO byte pipe.
- Bluetooth provisioning (src/ble.rs): it rests on signature, key exchange and cipher primitives that would have to be assumed.
- The reachability canary and relay choice: network behaviour around one counter.
- Published session lists in status.json: they are stored under a different lock from the one they are taken under and can lag, so equality with the live map is not claimed.
- Concurrent read-modify-write of the approved file and pending.json: there is no lock, so an update can be lost; runs in `Admissions` are serialised.
- ssh client and sshd start-up, host key fetch, forward listeners, key creation: I/O composition.
- Mounting, module loading, ioctls, DHCP traffic and log texts in boot/init.c: their outcomes are nondeterministic.
- JSON in pending.json: the file holds the list or is unreadable.
- ExecPipeline: modelled on values as steps of several tasks, not as loops, because the claim is about their interleavings.
- ExecPipeline.StepKeepsInv: the text of a refusal is any bytes that fit a message; that it is UTF-8 is not modelled.
- Sessions: modelled on values for the same reason; stable ids are distinct only among connections something still holds, and accept tasks are cancelled only while the endpoint is being shut down.
- AtomicWrite: modelled on values for the same reason; an inode number is not reused while the model runs, and no one deletes the target.
- AtomicWrite.WholeIffAlone: beside a write that is not finished, a second one can mix the two bodies' bytes; whether a reader can tell depends on the bodies and is not characterised.
- Supervisor.Init.Interfere: pids are not reused, versions of the credentials file never repeat, and no one deletes that file.
- Supervisor.Init.Run: a switch request that fails its move on Bluetooth and then forks ends the claim, because the loop invariant is then false.
- Supervisor.Init.Turn: what later turns make of an exit that a switch request dropped is left to the carrier and retry checks and not claimed.
- Admissions.AttemptsAreDials: counters are unbounded; overflow of 64-bit `attempts` is not modelled.
- Approved.ApproveAdds: the parser of a key is a parameter of which only that a key's own text parses to that key is used.
- Transfer.RecvFileBody: directories are only counted as missing or made, and never removed again; the digest is a function parameter, a digest collision is not excluded, and other writers in the same directory are not interleaved.
- DerivedLink.InitReadsLink: the three SHA-256 values are any bytes.
