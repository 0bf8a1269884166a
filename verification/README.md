# NFQTTL supervisor: protocols and packet path

A Dafny model of the Rust program that normalises the TTL of forwarded tethering traffic on
Android. It covers the five parts whose correctness spans several steps, and proves what they
are for:

- **Firewall rule swap** (`Iptables`, `Payloads`, `Mangles`, `Coverage`, `Firewall`). The mangle
  table is a map from chain to rules with FORWARD always present. One `Mangle` object is one
  iptables binary; every write may fail with or without having taken effect, every read may fail
  and then looks empty. `trace` holds the table after each command, since packets flow between
  commands. Results: a swap that returns true gives every packet the complete old payload or the
  complete new one at every moment if and only if no `-R` failed for nothing, any table is repaired,
  foreign rules survive each single command, and verified rules mean each forwarded packet meets
  our target once and first: it goes on with the configured TTL or hop limit, waits in a worker's
  queue, or is dropped, as the configuration says.
- **CAKE ownership** (`Qos`, `QosCodec`, with `Shaping` and `Requests`). Write-ahead journal and
  reconcile loop, which may be cut off between any two operations. Results: at every cut each root of ours is journaled with its
  exact index and options, through every history of cut runs and outside changes; a completed run
  is exact and idempotent; one completed cleanup after any history removes every root that is still
  ours and touches nothing else; what somebody else has set up on an interface is never touched, and
  when nothing fails every free wanted interface is shaped; the attribute and journal codecs
  round-trip exactly on the inputs that fit, and their bytes are spelled out.
- **Supervisor** (`Ticks`, `Supervisor`, `Watchdog`, `Recovery`, `Promises`). `Ticks` says what one
  iteration may do, as a relation between two snapshots of everything, and draws the consequences for whole
  histories; the methods in `Supervisor` run on real `Firewall` objects, with other tools editing the
  tables between iterations, and each is tied to its relation. Results: rules name exactly the
  queues that have workers, the order of installs, stops and cleanups, why an iteration falls back,
  the exact meaning of a stall, and the workers left after any history with a given number of
  fallbacks. `Promises` restates them over histories in terms of packets, chain names, samples and
  events alone.
- **Packet path** (`Bytes`, `Packet`, `Nfqueue`, with `Layout` and `Messages`). In-place TTL
  rewrite and checksum (RFC 791 section 3.1, RFC 1071 section 1, RFC 1624 section 3), the attribute walk, the verdict message
  (section 2.3.2 of RFC 3549), and the frame loop on a buffer it rewrites while reading. `Messages`
  takes kernel messages byte by byte, with any attributes in any order, and says which reply each
  gets, again byte by byte.
- **Offload journal and configuration** (`Offload`, `Net`, `Text`, `Config`, `Settings`, `Ctl`,
  `Reload`, with `Numbers` and `Wrappers` shared by all). Crash-safe ownership of three settings,
  interface classification and its signature, `load` against `validate`, every documented line with
  what it sets, `configure` as a map update on text, and what is loaded afterwards.

## How to read the contracts

- Failing operations are nondeterministic. Ghost counters (`faults`, `replaceFaults`, `misreads`,
  `troubles`) record what went wrong, so that a contract can say "if no write failed for nothing
  and every read was true". `faults` counts a write reported as failed
  although the table would take it; a target the kernel does not have is such a fault.
- `Stretch` is the value of a run: the table before, after each command, and after, with the three
  flags taken from the counters. `SwapContract`, `ActivateContract` and `SweepContract` are
  predicates on it; the `Mangle` methods ensure them, and lemmas turn them into statements about
  packets.
- In `Offload` every outcome is an explicit input. `Cut` ends a call in a given step: everything
  after it fails, a file write that is that step may be torn, a setting command that is that step
  may take effect unreported.
- `Snap` holds both tables, the counters, the fields of the supervisor and the log of events;
  `Turn` is one pass of its loop, and `History` a run of turns with arbitrary edits of the tables
  between them.
- `Layout`, `Messages`, `Shaping`, `Requests`, `Settings` and `Promises` hold no part of the program,
  `Shaping.Sync` apart. They say what the definitions of the other modules amount to in bytes, names, numbers and packets,
  without using those definitions in the statements.
- `mine` in `Qos.Host` is ghost: the roots this program installed and nobody changed since.

## Where the code does not do what one may expect

Each of these is stated as found, with the exact condition under which the property holds.

- When `-R` fails, `activate` flushes the hook before refilling it (`src/firewall.rs:339-351`), and
  meanwhile no packet is treated: `Coverage.EmptyHookTreatsNothing`, with the run itself in
  `Coverage.FailedReplaceRun`. If every read is true, no `-R` fails for nothing and the swap starts
  from an intact table, every table on the way is old or new. For a swap that returns true, with
  true reads and both payloads non-empty, that condition is exact (`Firewall.StretchTreats`): every
  table is old or new if and only if no `-R` failed for nothing.
- `del_jump` gives up at the sixteenth duplicate (`src/firewall.rs:115-129`): without faults it
  returns true if and only if there are at most 15 (`Mangles.Mangle.DelJump`), and so do `activate`,
  `install` and `cleanup`.
- A failed read is returned as an empty text (`src/firewall.rs:88-96`). Contracts that need true
  reads say so.
- When the idle cleanup fails, the program forgets the active chains (`src/daemon.rs:479-488`); the
  log says it retries, but the next iteration without links issues no command, whatever the tables
  hold: `Ticks.FailedIdleIsNotRetried`.
- If removing the `owned` file fails and removing `before` succeeds, the original setting can be
  lost for good (`src/offload.rs:97-98`): `Offload.FailedRemovalStrands`. The same happens when
  `before` cannot be read and the `owned` file is removed all the same, or when a failed status makes
  an apply rewrite `before` and that write is torn. `Offload.RestoreIsSafe` and
  `Offload.ApplyIsSafe` give the exact conditions for each state, `Offload.SteadyIsHarmless` and
  `Offload.UnsteadyHarms` the exact condition on the outcomes alone. Calls that meet none of these
  three faults before they are cut, at any step, are recovered from (`Offload.InterruptedRunsRecover`).
- A journal of more than 1024 encoded bytes cannot be read back (`src/qos.rs:332-340`):
  `QosCodec.JournalRoundTrip`. The options the program writes are far below that.
- `configure` can fail with the daemon stopped: before the file is replaced, when the backup or the
  rename fails (`src/ctl.rs:353-358`, outcome `LeftStopped`, and the temporary file stays), or after
  it, when the daemon does not start again (`src/ctl.rs:359-361`, outcome `NotRestarted`).

## Model

| member | source | states |
|---|---|---|
| Iptables.ConfinedKeepsForeign | src/firewall.rs:59-87 | each command on our chains leaves all foreign chains and the order of foreign FORWARD rules as they were |
| Mangles.Mangle.Run | src/firewall.rs:59-87 | one command: effect, refusal, or failure with or without effect; foreign rules and other chains untouched |
| Mangles.Mangle.List | src/firewall.rs:88-96 | a true read gives the chain's rules, a failed read looks empty |
| Mangles.Mangle.DelJump | src/firewall.rs:115-129 | true means every copy of the jump is gone and nothing else; without faults, true if and only if there were at most 15 |
| Mangles.Mangle.ReadHookOk | src/firewall.rs:262-272 | true reads: the answer is that FORWARD starts with the hook's jump and has no second one |
| Mangles.Mangle.ReadRulesOk | src/firewall.rs:274-334 | true reads: the answer is that hook, active side and payload are exactly those the links call for |
| Mangles.Mangle.Load | src/firewall.rs:379-432 | the idle side is filled with the complete payload; no other chain changes at any step |
| Mangles.Mangle.ReplaceHook | src/firewall.rs:335-346 | when -R is reported done the hook's first entry is the new one; with one entry and no -R failing for nothing, every table has the old entry or the new one |
| Mangles.Mangle.RefillHook | src/firewall.rs:347-351 | the fallback: when it succeeds the hook is exactly the new entry, and some table on the way had an empty hook behind an unchanged FORWARD |
| Mangles.Mangle.PointHook | src/firewall.rs:335-351 | with one hook entry and no failed -R, every table has the old entry or the new one; success after an -R that failed for nothing has passed through an empty hook |
| Mangles.Mangle.TrimHook | src/firewall.rs:352-363 | entries behind the first are deleted, nothing else |
| Mangles.Mangle.AttachHook | src/firewall.rs:364-376 | afterwards the hook is first and single; if it was, no command is issued |
| Mangles.Mangle.Activate | src/firewall.rs:335-377 | outcome, exact condition of success without faults, the state of every table on the way, and the empty hook on the way when an -R failed for nothing |
| Mangles.Mangle.Swap | src/firewall.rs:379-440 | true means verified rules for the new side; without faults it succeeds from any table with at most 15 hook jumps; every table on the way has the old payload or the complete new one, unless an -R failed for nothing, and then success has passed through an empty hook |
| Mangles.Mangle.Sweep | src/firewall.rs:130-171 | true means no listed jump is left; without faults, when that happens; when all chains of ours are gone |
| Mangles.Mangle.TryTarget | src/firewall.rs:206-221 | a probe touches only its own chain, and without faults leaves none; true means the kernel has taken a rule with this target |
| Payloads.SwapAfterLoad | src/firewall.rs:379-440 | loading the idle side cannot disturb what packets meet |
| Payloads.SwapAfterActivate | src/firewall.rs:433-440 | flushing the old side after the switch cannot either |
| Payloads.SweptUnreferenced | src/firewall.rs:130-171 | once jumps are dropped and chains flushed, no rule leads into our chains, so they can be deleted |
| Payloads.DroppedKeeps | src/firewall.rs:130-171 | dropping jumps to some chains does not change how often another chain is jumped to |
| Coverage.ServedPacket | src/firewall.rs:335-440 | with hook first and side complete, each packet meets exactly the payload's effect, before any foreign rule |
| Coverage.SwapTreats | src/firewall.rs:335-440 | from an intact table: each packet gets the complete old payload or the complete new one |
| Coverage.FirstTreats | src/firewall.rs:364-376 | from a table without our hook: each packet gets nothing of ours or the complete new payload |
| Coverage.EmptyHookTreatsNothing | src/firewall.rs:339-351 | while the hook is empty no packet is treated, although FORWARD starts with the jump to it |
| Coverage.EmptyHookIsNeither | src/firewall.rs:339-351 | such a table is neither the old state nor the new one, as soon as both payloads hold a rule |
| Coverage.FailedReplaceRun | src/firewall.rs:335-351 | from any intact table: the run in which -R fails for nothing, the flush and the append succeed, and the hook was empty in between |
| Coverage.PayloadEffect | src/firewall.rs:293-325 | the generated rules hit a packet once if its pair is downstream to upstream, and never otherwise |
| Coverage.VerifiedMeansCovered | src/firewall.rs:274-334 | rules_ok on classified links: the packet's first and only hit of ours is our target, for all other pairs there is none |
| Coverage.RulesSend4 | src/firewall.rs:379-440 | verified IPv4 rules: packets between the two sides go on with this TTL, or wait in queues 6464 up to one for each worker; all others pass unchanged; foreign rules come later |
| Coverage.RulesSend6 | src/firewall.rs:474-479 | verified IPv6 rules: normalize sets the hop limit and lets the packet go on, block drops it |
| Firewall.StretchTreats | src/firewall.rs:379-440 | what packets meet at every table of a swap: from an intact table, old or new if no -R failed for nothing, and for a swap that returned true with non-empty payloads only then; from an unhooked table, nothing or the new payload |
| Firewall.Firewall.Install4 | src/firewall.rs:379-440 | install4: swap contract, treatment of packets at every table, where packets go after success, only our chains touched |
| Firewall.Firewall.Install6 | src/firewall.rs:442-492 | install6: pass modes clean up, the others swap, a missing ip6tables fails; after success packets are normalised or dropped as the mode says |
| Firewall.Firewall.Cleanup | src/firewall.rs:203-205 | IPv6 is cleaned only after IPv4 was and is untouched otherwise, and true covers both |
| Firewall.Cleaned4 | src/firewall.rs:130-171 | cleanup4 by chain names: which jumps are gone, when it succeeds (at most 15 of each), which chains are gone |
| Firewall.Cleaned6 | src/firewall.rs:172-202 | the same for cleanup6 |
| Firewall.SwapSucceeds | src/firewall.rs:379-440 | nothing failing, a swap succeeds if and only if FORWARD jumps to the hook at most 15 times |
| Firewall.Firewall.ProbeTtl | src/firewall.rs:206-221 | without faults the probe succeeds and leaves no probe chain; true means the kernel has taken the target |
| Firewall.Firewall.ProbeHl | src/firewall.rs:222-240 | the same for IPv6, and false without ip6tables; true means the kernel has taken the target |
| Firewall.Firewall.ProbeBalance | src/firewall.rs:241-261 | one worker needs no balancing; otherwise only the probe chain is touched; true means the kernel has taken the target |
| Packet.FoldIsResidue | src/packet.rs:20-23 | the folded sum is 1..0xffff with the same residue modulo 0xffff, and 0 only for 0 |
| Packet.RewrittenVerifies | src/packet.rs:13-27 | only bytes 8, 10 and 11 change, and the header verifies |
| Packet.WordSumIsNumber | src/packet.rs:16-23 | the word sum is the header, read as one big-endian number, modulo 65535 |
| Packet.CompletePacketsAreUpdated | src/packet.rs:1-28 | exactly the complete IPv4 packets with another TTL are rewritten; they leave with the wanted TTL, a header that is a multiple of 65535, and nothing else changed |
| Packet.RecomputationIsIncremental | src/packet.rs:13-27 | for a header that verified, the recomputed checksum is the incremental update of RFC 1624 |
| Packet.HeaderChecksum | src/packet.rs:16-23 | the loops compute the complement of the folded word sum; the sum fits 32 bits |
| Packet.SetIpv4Ttl | src/packet.rs:1-28 | true exactly for rewritable packets, then the slice is the rewritten packet; false changes nothing; bytes outside the slice never change |
| Nfqueue.ScanReadsAttributes | src/nfqueue.rs:229-256 | the verdict's loop reads exactly the attributes of the walk, in order, and fails when the walk does |
| Nfqueue.AppendedAttribute | src/nfqueue.rs:81-101 | an appended attribute lies at the old end, the rest stays, the length field is the size |
| Nfqueue.ReplyReadsBack | src/nfqueue.rs:269-281 | the reply, walked with the worker's own loop: accept, this id, this queue, payload exactly when given |
| Nfqueue.AnswerAccepts | src/nfqueue.rs:213-282 | every message that is not refused gets a reply that accepts it by its id |
| Nfqueue.ReplacementIsFaithful | src/nfqueue.rs:257-281 | a replacement payload is the packet with a new TTL and a valid checksum, and only for complete forwarded IPv4 packets |
| Nfqueue.Message.Begin | src/nfqueue.rs:58-71 | the header of a reply |
| Nfqueue.Message.Attr | src/nfqueue.rs:81-101 | appends one padded attribute, and refuses exactly those over 65531 bytes |
| Nfqueue.ReadAttributes | src/nfqueue.rs:235-256 | the loop over the buffer is the scan |
| Nfqueue.Verdict | src/nfqueue.rs:213-282 | total: the answer, the buffer afterwards, the counters; seen = rewritten + unchanged and truncated <= unchanged |
| Nfqueue.ServeDatagram | src/nfqueue.rs:412-430 | although verdicts rewrite the buffer, the replies are those of the datagram as received, up to the first failure |
| Nfqueue.OneAnswerPerPacket | src/nfqueue.rs:412-430 | for any datagram of whole frames: each packet before the first frame that ends the worker gets one answer, in order, to that frame, and the worker ends as that frame says |
| Messages.LaidIsScanned | src/nfqueue.rs:229-256 | of any attributes in any order, the scan hears the last packet header, capture length and payload |
| Messages.ReplyIsAccepting | src/nfqueue.rs:58-101 | the reply, byte by byte |
| Messages.PacketIsAnswered | src/nfqueue.rs:213-282 | a message of any attributes is answered by the id in its packet header, with a new payload exactly when header, capture length and packet call for it, and that is its packet brought up to date |
| Messages.RefusedMessages | src/nfqueue.rs:220-257 | no packet header or another queue: refused |
| Messages.PacketIsCounted | src/nfqueue.rs:257-281 | which packets count as rewritten and as truncated |
| Messages.PacketsAreAnswered | src/nfqueue.rs:412-430 | any number of packet messages in one datagram: one such answer each, in order |
| Messages.BadSizesEnd | src/nfqueue.rs:413-421 | a size below 16 or beyond the datagram ends the worker |
| Messages.ErrorsEnd | src/nfqueue.rs:426-428 | so does an error message |
| Messages.OthersArePassedOver | src/nfqueue.rs:422-429 | other messages are passed over with their padding |
| QosCodec.OptionsRoundTrip | src/qos.rs:26-56 | parsing the encoding gives the options back if and only if keys are below 0x4000 and values at most 65531 bytes |
| QosCodec.EncodeOptions | src/qos.rs:50-56 | the encoder's loop writes the attributes in ascending order of keys |
| QosCodec.ParseOptions | src/qos.rs:32-49 | the parser's loop is the attribute walk with its three errors |
| QosCodec.HexReadsBack | src/qos.rs:325-340 | hex text reads back as the bytes |
| QosCodec.JournalRoundTrip | src/qos.rs:341-375 | a journal reads back as (ifindex, options) if and only if the options encode, into at most 1024 bytes |
| QosCodec.AddedIsOwned | src/qos.rs:91-131 | decoding the add message yields a qdisc that owned accepts, exactly when the options have no key 1 |
| QosCodec.CakeOptionsSurvive | src/qos.rs:57-82 | the options the program uses meet all of these conditions |
| Requests.EncodedIsLaid | src/qos.rs:50-56 | the options go out as one attribute each, in ascending order, byte by byte |
| Requests.ItemIsParsed | src/qos.rs:32-49 | an attribute is read under its type without flags, and refused if that was there before |
| Requests.BadTails | src/qos.rs:34-42 | what is too short to be an attribute, or whose padded length is beyond the end, is refused |
| Requests.OptionsSay | src/qos.rs:57-82 | each of the program's options, as a number |
| Requests.AddRequestIsSpelled | src/qos.rs:114-131 | the request that adds a root, byte by byte |
| Requests.HexIsSpelled | src/qos.rs:325-331 | two lower-case hexadecimal digits a byte |
| Requests.DigitsAreRead | src/qos.rs:332-340 | digits are read in either case |
| Qos.Host.Add | src/qos.rs:296-303 | create-exclusive: takes effect only on a kernel default; on failure it may still have |
| Qos.Host.Delete | src/qos.rs:304-306 | removes the root with our handle and restores a default; on failure it may still have |
| Qos.Host.Release | src/qos.rs:384-394 | first half: what is wanted and in force stays, everything else is undone; covered at every cut |
| Qos.Host.Install | src/qos.rs:395-425 | second half: journal, add, verify; covered at every cut; succeeds without trouble unless a custom root or child is in the way |
| Qos.Host.Reconcile | src/qos.rs:376-431 | wherever it ends: covered, others left alone, what was in force and wanted kept, no journaled root orphaned; done means journal = wanted and all in force; without trouble it is done unless a custom qdisc stands on a wanted interface; in force already means no add and no delete |
| Qos.DeletingIsSafe | src/qos.rs:390-392 | deleting a root of ours keeps everything else covered and in place |
| Qos.ForgettingIsSafe | src/qos.rs:393 | removing a journal entry whose root is gone keeps all roots covered |
| Qos.WritingIsSafe | src/qos.rs:418 | writing the journal before the add keeps all roots covered |
| Qos.AddingIsSafe | src/qos.rs:419 | an add after its journal entry keeps all roots covered |
| Qos.HalvesLeaveOthersAlone | src/qos.rs:384-425 | only journaled roots of ours and wanted vacant interfaces are ever changed |
| Qos.HalvesKeep | src/qos.rs:384-425 | what is wanted and in force is kept, journal entry and device |
| Qos.HalvesOrphanNone | src/qos.rs:384-425 | a journaled root of ours leaves the kernel before the journal forgets it |
| Qos.AllGone | src/qos.rs:465-469 | wanting nothing, a completed run leaves no root that was ours |
| Qos.InForceIsKept | src/qos.rs:384-416 | a second run finds nothing to undo |
| Qos.HalvesAreHonest | src/qos.rs:384-425 | a root that was ours is still ours or no longer in the kernel: a run never loses track of one |
| Qos.PathIsCovered | src/qos.rs:376-431 | at every point of every history of cut runs and outside changes, each root of ours is journaled |
| Qos.PathRespectsOthers | src/qos.rs:384-425 | over a whole history, an interface never journaled as ours, wanted while vacant or changed by others stays as it was |
| Qos.CleanupRemovesAll | src/qos.rs:465-469 | after any history, one completed cleanup takes every root that is still ours out of the kernel, changes nothing but journaled roots with our handle and options, and empties the journal |
| Qos.LiveThenCleanup | src/qos.rs:376-431 | a host that lives through these events passes through such a history, and the cleanup after it is a reconcile from its last state |
| Shaping.CustomIsPreserved | src/qos.rs:384-417 | a device without a claimed root of ours that carries a custom root or child stays as it is, wherever the run ends |
| Shaping.DoneMeansShaped | src/qos.rs:418-425 | a finished run: CAKE with our handle and the wanted options on each wanted interface |
| Shaping.FreeIsShaped | src/qos.rs:395-425 | when nothing fails, a run finishes if each wanted interface has only kernel defaults, or its root already |
| Shaping.UnfinishedMeansOccupied | src/qos.rs:405-417 | when nothing fails, a run that does not finish has met a wanted interface that is occupied |
| Shaping.OccupiedIsRefused | src/qos.rs:405-417 | a wanted interface that is occupied makes the run fail, and nothing on it changes |
| Shaping.ClaimsAreKept | src/qos.rs:384-394 | a claimed root is still claimed or no longer there; a finished cleanup has removed all of them |
| Shaping.Sync | src/qos.rs:452-469 | one reconcile on a host, in these terms |
| Shaping.ForeignStays | src/qos.rs:376-431 | over any history of cut runs, what is somebody else's stays until somebody changes it |
| Offload.ApplyIsSafe | src/offload.rs:48-77 | apply keeps the setting recoverable if and only if it does not tear `before` under an unreadable claim |
| Offload.RestoreIsSafe | src/offload.rs:79-100 | restore keeps it recoverable if and only if it does not strand it |
| Offload.FinishedRestoreRecovers | src/offload.rs:79-100 | a restore that runs to its end restores the original, unless it could not read what that was |
| Offload.RestoreRespectsOthers | src/offload.rs:90-96 | restore issues a setting command only if the setting was read and is the one we own, and without one the setting stays |
| Offload.SteadyIsHarmless | src/offload.rs:48-100 | with these outcomes an apply or restore keeps every recoverable setting recoverable |
| Offload.UnsteadyHarms | src/offload.rs:48-100 | any other outcome loses some setting: the condition on outcomes is exact |
| Offload.CutIsSteady | src/offload.rs:48-100 | a call cut in any step has such outcomes, if the status, reading the old value and removing the claim work when they are reached |
| Offload.RunThenRestoreRecovers | src/offload.rs:48-100 | after any applies and restores with such outcomes, a completed restore gives the original back |
| Offload.InterruptedRunsRecover | src/offload.rs:48-100 | the same for applies and restores each cut in any step, with torn file writes and setting commands that fail or take effect unreported |
| Offload.FailedRemovalStrands | src/offload.rs:97-98 | concrete run in which a failed removal loses the original |
| Offload.ApplySwitchesOff | src/offload.rs:48-77 | an apply that works leaves each setting that was on, or left to the system, at the value that switches offload off, claimed, with the old value on record; everything else stays |
| Offload.RestoreGivesBack | src/offload.rs:79-100 | a restore that works gives back what is still ours and removes both files |
| Offload.ChangedOnlyWhenClaimed | src/offload.rs:58-72 | whatever fails, a setting is changed only behind a complete claim |
| Offload.ApplyThenRestore | src/offload.rs:48-100 | an apply and a restore that work leave nothing behind |
| Offload.Phone.ApplyAll | src/offload.rs:48-77 | the loop does to each of the three settings what the step function says; if the operations work, each is switched off and claimed |
| Offload.Phone.RestoreAll | src/offload.rs:79-100 | likewise for restore; if the operations work, each claimed setting is given back |
| Net.Classify | src/net.rs:79-102 | exactly the valid live names by configuration or prefix, each list ascending, no name in both; with the names and prefixes spelled out |
| Net.AscendingUnique | src/net.rs:91-100 | an ascending list is determined by its members |
| Net.OnlySetsMatter | src/net.rs:79-102 | order and repetition in the inputs do not change the result |
| Net.SortsIsClassified | src/net.rs:79-102 | the lists are duplicate-free, disjoint, and of valid names |
| Net.SignatureInjective | src/net.rs:15-17 | on classified links the signature changes exactly when the links do |
| Watchdog.StallSample | src/daemon.rs:229-246 | the loop is the walk over the entries, for any sample |
| Watchdog.WalkDistinct | src/daemon.rs:233-245 | with distinct queues each entry is counted against the previous samples only, and the result is the highest count |
| Watchdog.StallMeansStuck | src/daemon.rs:229-246 | the count reaches a limit if and only if some queue had the same positive length and sequence in the last limit + 1 samples |
| Recovery.Degrades | src/daemon.rs:673-684 | after n recoveries the workers are the ceiling of W / 2^(n div max_failures), at least one |
| Recovery.NeverRises | src/daemon.rs:673-684 | more recoveries never mean more workers |
| Recovery.WaitDoubles | src/daemon.rs:674-685 | the wait is twice the cooldown at first, doubles with each failure up to the fifth, is never over a minute, and is 30 seconds at the limit |
| Supervisor.Workers.Start | src/daemon.rs:111-184 | true means exactly the queues from the base up have workers; the old set is stopped first |
| Supervisor.Workers.Healthy | src/daemon.rs:97-110 | true exactly when there are as many workers as asked for, none has exited, and each owns its queue |
| Ticks.QueuesBack | src/daemon.rs:118-119 | the range the rules name is exactly the set of queues with workers |
| Ticks.TickKeepsInv | src/daemon.rs:444-642 | every iteration keeps the invariant: known chains, the full range of workers behind active queue rules, the order of events |
| Ticks.TickOutcome | src/daemon.rs:444-642 | each outcome with what it did to rules, workers and counters, and why: nothing changes unless start, links or rules call for it, and no fallback without an event of this very iteration, a failed step, a bad check or a stuck queue |
| Ticks.IdleIsQuiet | src/daemon.rs:479-489 | with no links and nothing active an iteration issues no command and touches no worker |
| Ticks.FailedIdleIsNotRetried | src/daemon.rs:479-489 | after a failed idle cleanup the next iteration without links issues no command, whatever the tables hold |
| Ticks.HistoryKeeps | src/daemon.rs:444-642 | any number of iterations with edits between them keeps the invariant, and the log only grows |
| Ticks.HistoryDegrades | src/daemon.rs:673-684 | without a stable minute, the health after a history is decided by its number of fallbacks alone |
| Ticks.HistoryClosedForm | src/daemon.rs:673-684 | after a history with F fallbacks, the workers are the ceiling of W / 2^(F div max_failures), at least one |
| Ticks.RenewedMeansServed | src/daemon.rs:500-534 | after an installing iteration each forwarded packet's only hit names queues that all have workers, and other pairs have none |
| Promises.InOrderServes | src/daemon.rs:462-476 | rules in order mean that packets go where the configuration says, in both families, with a worker behind each queue |
| Promises.TurnServes | src/daemon.rs:444-551 | so after an iteration that installed or checked the rules with true reads |
| Promises.EndIsJumpless | src/daemon.rs:643 | a run that ends with true has left no jump to any of the named chains |
| Promises.IdleIsJumpless | src/daemon.rs:479-489 | nor has an idle cleanup that returned true |
| Promises.HistorySamples | src/daemon.rs:552-590 | the watchdog remembers exactly the samples of the inputs since the links were last settled |
| Promises.HistoryIsWatched | src/daemon.rs:552-608 | with queue rules active and a sample due, an iteration that does not fall back has found the workers healthy, a row for each, and no queue standing still for the limit in those samples |
| Promises.FallbackIsDue | src/daemon.rs:552-608 | a fallback after a good health check means a sample of the wrong size or a queue that did stand still |
| Supervisor.Supervisor.Recover | src/daemon.rs:655-691 | RecoveredTo: cleanup, then stop; nothing active; what the cleanup has removed; failures and workers as the recovery step says; the wait |
| Supervisor.Supervisor.Bring | src/daemon.rs:500-534 | Brought: rules go in only behind a good health check or start; success means both tables are in order; failure means a failed start, or an install in which a command failed or too many jumps stood |
| Supervisor.Supervisor.Cleanup | src/daemon.rs:643 | CleanedUp: true with true reads means no jump to any chain of ours, past or present; without faults and with at most 15 copies of each jump it is true |
| Supervisor.Supervisor.Idle | src/daemon.rs:479-489 | IdledTo: nothing at all happens exactly when nothing is active; otherwise one cleanup, workers stopped, chains forgotten either way |
| Supervisor.Supervisor.Verify | src/daemon.rs:462-476 | Verified: with true reads, intact if and only if both tables hold exactly the rules the links call for |
| Supervisor.Supervisor.Watch | src/daemon.rs:552-608 | passes if and only if the set is healthy, the rows match, and no queue is stuck in the samples taken |
| Supervisor.Supervisor.Look | src/daemon.rs:450-477 | Looked: with true reads, nothing to do if and only if the links are those served before and, when due, the rules are in order |
| Supervisor.Supervisor.Tick | src/daemon.rs:444-642 | one iteration keeps the invariant and is one step of the relation Ticked, for this input and outcome |
| Supervisor.Supervisor.Run | src/daemon.rs:444-653 | a history of turns, one for each input in order, with arbitrary edits of the tables between them, then one cleanup and no workers; the whole log is orderly |
| Supervisor.Prepare | src/daemon.rs:362-397 | the first cleanup and the probes choose backend, worker count and IPv6 mode as configured, or refuse; a choice that needs a target means the kernel has taken it, a fallback or refusal over a target means a failed probe; without faults and with removable jumps it succeeds if and only if normalisation is not asked for without ip6tables |
| Supervisor.ChooseV6 | src/daemon.rs:282-315 | the effective IPv6 mode for each configured mode, with or without ip6tables; normalisation whenever it is allowed and no command fails |
| Supervisor.Supervise | src/daemon.rs:344-653 | run_inner from the first cleanup: without faults it is not refused, and when not refused it is a history of turns for all inputs from a state with nothing active, under the configured limits, ending as Run ends |
| Config.Load | src/config.rs:90-210 | load is the fold of its lines over the defaults, then the backlog cap |
| Config.LoadedIsWithinBounds | src/config.rs:90-210 | whatever the file holds, each number is within its bounds and the backlog limit fits the queue |
| Config.Validate | src/config.rs:231-338 | true exactly for acceptable texts: every line, distinct keys, no overlap, the CAKE rules |
| Config.AcceptedLoadsExactly | src/config.rs:90-210 | a valid line decides its setting, with no silent fallback |
| Config.UnsetKeepsDefault | src/config.rs:46-73 | a setting no line names keeps its default |
| Config.ValidatedMeansExact | src/config.rs:231-338 | what validate accepts loads as written, apart from the backlog cap |
| Settings.LineIsRead | src/config.rs:75-104 | KEY=VALUE, bare or in either quotes, says that value |
| Settings.ListReadsBack | src/config.rs:124-137 | names joined by spaces read back as these names |
| Settings.NumericSettings | src/config.rs:257-277 | each numeric setting by name: validate accepts exactly the numbers in its bounds, and load sets them |
| Settings.StrayIsIgnored | src/config.rs:105-194 | what load makes of numbers out of bounds: these settings stay as they were |
| Settings.StrayIsTaken | src/config.rs:195-199 | and these take the nearest bound, or the number |
| Settings.NumberDefaults | src/config.rs:46-73 | the defaults of the numeric settings |
| Settings.TextDefaults | src/config.rs:46-73 | the defaults of the others |
| Settings.ChoiceSettings | src/config.rs:111-146 | each backend and IPv6 mode by its word |
| Settings.OnlyTheseWords | src/config.rs:280-282 | validate accepts no other words |
| Settings.FlagsAreLoaded | src/config.rs:138-202 | a switch is on for 1 and for true in any case, and off for any other text |
| Settings.NameSettings | src/config.rs:124-137 | a list of interface names, in any quotes, is loaded as these names |
| Settings.InterfaceSettings | src/config.rs:200-201 | an interface name, or none, is loaded as it is |
| Settings.NamesAreDisjoint | src/config.rs:283-303 | no accepted file names an interface on both sides |
| Settings.CakeNeeds | src/config.rs:304-336 | the exact reasons for which a file is refused over CAKE |
| Ctl.ReadsByRawKey | src/ctl.rs:334-339 | configure finds a setting's line by the same key under which load reads it |
| Ctl.EditIsUpdate | src/ctl.rs:332-346 | an edit without duplicates overrides exactly the given settings, with their unquoted values |
| Ctl.EditKeepsLines | src/ctl.rs:332-346 | all other lines stay where they are, as they are |
| Ctl.SavedIsUpdate | src/ctl.rs:332-353 | the same for the text that is written and read again |
| Ctl.ParseArgs | src/ctl.rs:308-331 | accepts exactly non-empty lists of KEY=VALUE with valid, distinct keys and one-line values |
| Ctl.Rewrite | src/ctl.rs:332-346 | the rewriting loops produce the edited lines |
| Ctl.Module.Configure | src/ctl.rs:304-363 | not replaced: the file is as before, and the outcome says whether the daemon is left down; replaced: it is accepted text whose settings are the old ones overridden, and the backup is the old file; when no operation fails, valid arguments are saved if and only if validate accepts the edited text |
| Reload.BlanksDoNotMatter | src/config.rs:95-98 | blanks around a line make no difference |
| Reload.SettingDecides | src/config.rs:90-210 | what load makes of a file without duplicates is decided by the settings, one by one |
| Reload.ArgumentsAreSplit | src/ctl.rs:308-325 | which arguments are fine, and how they are taken apart |
| Reload.ConfiguredIsLoaded | src/ctl.rs:304-363 | what is loaded from the file configure has written: each given setting as its argument says, every other as before |

## Left out

- Sockets, poll, recv, send, signals, flock, process spawning and /proc: operations with arbitrary outcomes here.
- Time: elapsed checks are inputs of an iteration; only computed delays are modelled.
- The text of iptables and `ip` output: rules and interface sets are data, and chain names a datatype. Which iptables binary is selected is not part of this model.
- The active chain names are None or one of the two payload chains, as the supervisor passes them; other strings do not occur.
- Byte order: little-endian for netlink header fields, big-endian for nfqueue fields.
- A dump of qdiscs is a map from interface index to at most one root and its other qdiscs; the order of entries does not matter to the code. The read loop over netlink answers is not modelled.
- Journal files are modelled as a map in `Qos`; their text is covered by `QosCodec.JournalRoundTrip` for every entry the program writes. A leftover temporary file has no effect and is not modelled.
- Races with other tools during one reconcile, and outside changes to a setting between an apply and a restore: the code does not claim to handle them.
- Counters are unbounded; failures, stall counts and the retry delay keep their saturation.
- The workers' start-up polling is one arbitrary outcome; stops inside a failed start are part of the start.
- Which roots are wanted is an input of `Shaping.Sync`; that the configured rates, the links and the interface indexes decide it is not part of this model.
- Settings are a map by key instead of a record, and validation errors carry no line numbers.
- The status texts, logs, status command, traffic verification, packaging and the older C version.
