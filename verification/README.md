# Verified models of the networking reproducers and checkers

A Dafny project that models the protocols and algorithms the repository's
reproducers, regression programs and patch checkers rely on, and proves what they
promise.  `dafny verify dfyconfig.toml` checks all of it.

## What is modelled

**The IPVS overload flag** (`StoreBuffer`, `OverloadFlag`, `OverloadSafety`,
`OverloadBudget`, `OverloadHarness`, `OverloadRounds`, `OverloadDuel`, `OverloadMiss`,
`OverloadConverse`, `OverloadProgress`, `OverloadBetween`, `OverloadDest`).  An editor
publishes thresholds under a lock and recomputes a flag; bind and unbind threads count with an atomic read-modify-write, read one threshold
without the lock, and take the lock only on an exact hit.  The file's header calls it
an x86 model, so memory is x86 memory: one shared memory, a FIFO store buffer for
each thread, loads that look into their own buffer first, and read-modify-writes and
fences that wait for an empty buffer.  `OverloadFlag` has any number of threads, each
running any sequence of operations with any thresholds where lv <= u;
`OverloadHarness` is the whole three-thread program with its rounds.  Schedules are
sequences of choices, so a statement for all sequences is one for all runs.  With the
fence (or without store buffers) no transition is lost, because a wrong flag always
has a thread that will still reread the count under the lock; without it, exactly the
machines with store buffers lose transitions, the program can miss every round, and
one edit against one bind or unbind loses exactly the counts that `Overlooked` names.
Fenced or not, neither the lock nor the round barrier can deadlock, and between the
thresholds the flag follows whoever holds the lock: a bind sets it, an unbind clears it,
an edit keeps it.  The count has 32 bits: `OverloadBudget` gives the exact number of binds and unbinds,
checkable beforehand, for which it cannot wrap and the flag stays right.

**The packet race** (`PacketRace`, `PacketBarrier`, `PacketRounds`, `PacketTruth`,
`PacketStory`, `PacketStop`, `PacketWrap`).  Main, an editor, a sender and a server with
their store buffers, over a channel that loses, repeats and reorders.  For every 32-bit iteration count each
worker makes one call a round, in order, rearming never overlaps an edit, and after the
stop everyone returns.  What `await_packet` reports did arrive, and every round up to the
number counted happened; only round 0, to which the unsigned loop counter wraps at the
largest count, is an exception, and after the wrap the probe: `PacketWrap` constructs
such runs and proves that no other count has one.  `PacketStory` keeps the answers main
was given, and says from them alone what is a miss, when main goes on, gives up or
exits, and when a probe is lost.

**Netlink attributes and messages** (`Octets`, `NetlinkTlv`, `NetlinkWalk`,
`NetlinkStack`, `NetlinkScript`, `NetlinkRequest`, `NetlinkReplies`).  Two kinds of
builders write attributes in place and patch nest lengths afterwards; independent
walkers read them.  Well-bracketed calls are exactly the scripts of attribute forests,
they stay inside the buffer and the nesting array exactly when the forest has room,
and a walk returns the forest; methods run them on the live objects.  Conversely a reader
accepts exactly the bytes on which a forest lies, up to padding cut short at an end.
Messages packed byte by byte are split back into themselves.  Message headers follow section 2.3.2 of RFC 3549.

**Internet checksums** (`Checksum`).  Five versions, each the loop of the source with
its 32-bit accumulator, against one function: the one's-complement sum of RFC 1071.

**Bit-fields** (`BitField`, `BitValue`, `BitOrder`).  The read, probed read and write
macros on any layout the relocations can describe, in both byte orders, and the mask
store of the reproducers, on 64-bit words as rows of bits, and the numbers that those
rows and the bytes in memory stand for.

**Patch series** (`Series`, `Patches`).  Commits are a graph of parent lists, patches
partial edits of single paths.  An accepted listing is the one single-parent path from
base to head, a verified series rebuilds the head's tree, and disjoint series are
independent.

**Hash buckets** (`BucketIndex`).  Linked buckets on the heap: scanning one bucket for
a key finds what a scan of the whole map would, and the safe forms survive unlinking.

## Notes on the source

- The counter of the overload flag is a C `int` that every comparison reads as
  unsigned; the model keeps its unsigned 32-bit view.  The guarantee is false once it
  wraps: from every calm destination with 0 < lv, total + 1 unbinds one after another
  end wrong on every machine (`WrappedCountMisleads`).  It holds if and only if the
  binds and unbinds begun cannot take the count out of its 32 bits (`BudgetIsExact`).
- The size check of `nlattr_add` adds an `int` to an `unsigned`, so a negative length
  wraps; with a null pointer such a call is refused one way or the other.
- The comment on `BPF_CORE_WRITE_BITFIELD` calls the macro its own inverse; it is the
  inverse of the read macro, and that is what is proved.
- `ipv4_checksum` drops an odd last byte, unlike the other versions; `NetAgrees` says
  exactly when that shows.
- `addattr_nest_end` measures to `nlmsg_len` itself and `nlattr_end_nested` to its
  aligned value; both are modelled as they are.
- A nest of the stack builder gets its length only when it is closed, so only closed
  nests are claimed to read back.

## Model

| member | source | states |
|---|---|---|
| StoreBuffer.LoadAfterDrain | ipvs-overload-fix/overload-ordering.c:1-6 | on the x86 memory the file's header asks for, a store reaching memory never changes what its own thread reads |
| StoreBuffer.LoadAfterStore | ipvs-overload-fix/overload-ordering.c:96-100 | store-to-load forwarding: a thread reads its own newest store, and its other stores do not matter to that location |
| OverloadSafety.QuiescentFlagIsRight | ipvs-overload-fix/overload-ordering.c:45-106 | fenced or without store buffers: any number of bind, unbind and edit threads, any thresholds lv <= u, any run in which no read-modify-write wrapped the count: once nobody works and the buffers are empty, the flag is 2 if total >= u > 0 and 0 if u = 0 or total < lv |
| OverloadBudget.BudgetedFlagIsRight | ipvs-overload-fix/overload-ordering.c:45-106 | the same for every run whose binds begun keep total below 2^32 and whose unbinds begun are at most total: the count never wraps, a wrong flag always has a repairer, and at rest the flag is right |
| OverloadBudget.BudgetIsExact | ipvs-overload-fix/overload-ordering.c:45-106 | and for no more: a destination is safe for so many binds and unbinds, among any edits, if and only if total + binds < 2^32 and unbinds <= total |
| OverloadBudget.WrappedCountMisleads | ipvs-overload-fix/overload-ordering.c:72-84 | from every calm destination with 0 < lv, total + 1 unbinds (or 2^32 - total binds) one after another end with the wrong flag, on every machine |
| OverloadSafety.WrongFlagHasRepairer | ipvs-overload-fix/overload-ordering.c:45-106 | in between, in runs that have not wrapped the count, a wrong flag always has a thread that will still read the count under the lock, or whose right flag is on its way to memory |
| OverloadSafety.LockExcludes | ipvs-overload-fix/overload-ordering.c:45-51 | at most one thread is between taking the lock and its release, fenced or not, and then the lock word is set |
| OverloadSafety.CountKeeps | ipvs-overload-fix/overload-ordering.c:72-78 | the locked read-modify-write keeps the invariant: whoever makes the flag wrong is pending |
| OverloadSafety.ReadKeeps | ipvs-overload-fix/overload-ordering.c:52-65 | the reads of update() keep the invariant from whatever the flag was, across the hysteresis between the thresholds |
| OverloadBetween.BetweenThresholds | ipvs-overload-fix/overload-ordering.c:52-65 | on every machine and whatever the other threads do: a lock holder that reads lv <= total < u keeps the lock until it releases it with flag 2 for a bind, 0 for an unbind and the old flag for an edit |
| OverloadSafety.PublishKeeps | ipvs-overload-fix/overload-ordering.c:96-100 | publishing thresholds and waiting at the fence keep the invariant |
| OverloadSafety.ExecKeeps | ipvs-overload-fix/overload-ordering.c:45-106 | every run keeps the invariant, for some owner of the lock |
| OverloadRounds.FencedRunsNeverMiss | ipvs-overload-fix/overload-ordering.c:66-138 | for every iteration count and both events, main never counts a miss in any run of the fenced program, the buffered resets included |
| OverloadProgress.CanAlwaysFinish | ipvs-overload-fix/overload-ordering.c:37-138 | fenced or not, on any machine: from every reachable state some further choices finish all the rounds, so neither the spin lock nor the round barrier deadlocks |
| OverloadRounds.RoundBarrier | ipvs-overload-fix/overload-ordering.c:37-40 | fenced or not: both done counters are n or n + 1 for main's round n and never ahead of the epoch |
| OverloadRounds.ResetNeverOverlaps | ipvs-overload-fix/overload-ordering.c:123-132 | fenced or not: while a reset store of main is still to be made or to reach memory, both workers rest with empty buffers |
| OverloadRounds.RoundStartsFresh | ipvs-overload-fix/overload-ordering.c:123-129 | fenced or not: the workers of a round find the reset count, thresholds and flag in memory, 99, 200, 0, 150 and 0 for bind, 75, 100, 50, 50 and 2 for unbind |
| OverloadRounds.InspectSeesTheRound | ipvs-overload-fix/overload-ordering.c:130-138 | when main reads the flag all stores of both workers are in memory: all three new thresholds, the new count and, if ordered, the right flag |
| OverloadDuel.EditorDecides | ipvs-overload-fix/overload-ordering.c:93-101 | an unfenced editor can reach its verdict on the old count while its thresholds are still buffered |
| OverloadDuel.DuelMisses | ipvs-overload-fix/overload-ordering.c:72-102 | from every overlooked count some unfenced run of one edit against one bind or unbind ends with the wrong flag |
| OverloadMiss.UnfencedEditLoses | ipvs-overload-fix/overload-ordering.c:72-102 | the same among the runs of the many-thread machine, from every memory and for every edit and count that meet the stated arithmetic condition |
| OverloadMiss.SafeIffOrdered | ipvs-overload-fix/overload-ordering.c:96-101 | no run that has not wrapped the count, and likewise no run within the budget of binds and unbinds, ends wrong if and only if the fence is there or stores are not buffered: the missing fence is purely a store-buffer effect |
| OverloadConverse.OnlyOverlookedLoses | ipvs-overload-fix/overload-ordering.c:72-102 | conversely, on any machine, one edit against one bind or unbind from a right memory ends wrong only if the count is overlooked |
| OverloadConverse.LosesIffOverlooked | ipvs-overload-fix/overload-ordering.c:72-102 | unfenced on store buffers the two can end wrong if and only if it is |
| OverloadMiss.UnfencedRunMissesEveryRound | ipvs-overload-fix/overload-ordering.c:107-138 | without the fence some complete run of the program counts a miss in every round, for any iteration count and both events |
| OverloadMiss.NoMissIffOrdered | ipvs-overload-fix/overload-ordering.c:107-138 | the program can count a miss if and only if it runs a round unfenced on store buffers |
| OverloadDest.Dest.Update | ipvs-overload-fix/overload-ordering.c:52-65 | whatever the flag was, it is right afterwards, and between the thresholds it follows the mode |
| OverloadDest.Dest.Bind | ipvs-overload-fix/overload-ordering.c:72-84 | one at a time, a bind keeps the flag right and changes it only by hitting the upper threshold |
| OverloadDest.Dest.Unbind | ipvs-overload-fix/overload-ordering.c:72-84 | one at a time, an unbind keeps the flag right and changes it only by leaving the lower threshold |
| OverloadDest.Dest.Edit | ipvs-overload-fix/overload-ordering.c:93-102 | one at a time, an edit keeps the flag right, keeps it as it was if lv <= total < u, and is skipped, lv and flag included, if u and l stay |
| PacketBarrier.NextKeeps | ipvs-overload-fix/runtime/packet-race.c:47-72 | every step and every drain keeps the barrier: where each worker may be, and what its buffer holds, by the epoch in memory |
| PacketTruth.AwaitIsTruthful | ipvs-overload-fix/runtime/packet-race.c:92-98 | a smoke packet, racing packet or probe seen by await_packet is the one last noted and was received, though last_seen may have fallen meanwhile |
| PacketTruth.ReportedPacketsArrived | ipvs-overload-fix/runtime/packet-race.c:152-166 | in every run of every 32-bit iteration count, in every round but round 0: a racing packet reported by await_packet was received; so was a reported probe, until the loop counter wraps, which only the largest count allows |
| PacketTruth.CountedRoundsHappened | ipvs-overload-fix/runtime/packet-race.c:137-172 | in every run of every 32-bit count, the counter wrapped or not: every round up to the number main has counted had both calls succeed and its packet arrive |
| PacketRounds.RoundsRunOnce | ipvs-overload-fix/runtime/packet-race.c:137-172 | in every run of every 32-bit count: each worker makes one call a round in order (call i for round (i + 1) mod 2^32), both have just made round n's when main judges round n, every call before succeeded, and a finished main has counted them all, without a miss exactly as many as asked for |
| PacketStory.MissIffSeenTwice | ipvs-overload-fix/runtime/packet-race.c:156-171 | in every run of every 32-bit count: a miss is counted, at most one, if and only if both readings after one round were readable with over != 0 and total = 0, and the second also with u = l = 1 |
| PacketStory.LastLookDecides | ipvs-overload-fix/runtime/packet-race.c:137-172 | the last reading of the state file decides where main is: it begins the round after a clean one, reads again after a suspicious one, counts the miss after a convicting one, exits after an unreadable one, and has otherwise gone on to the next round |
| PacketStory.DiesIffFatal | ipvs-overload-fix/runtime/packet-race.c:131-163 | main exits early exactly after a failed call or reading, an unclean start, a reported error number, or 1001 looks that never saw the packet |
| PacketStory.WaitsEndAtThePacket | ipvs-overload-fix/runtime/packet-race.c:92-98 | await_packet ends at the first look that shows the number, and never looks more than 1001 times |
| PacketStory.ProbeLostIffUnseen | ipvs-overload-fix/runtime/packet-race.c:158-174 | at the end of a run with a miss the probe was sent, and it is reported lost if and only if the last look at last_seen, then the 101st, was below 2n + 1; without a miss none is reported lost |
| PacketStory.DoneIsJoined | ipvs-overload-fix/runtime/packet-race.c:173-174 | main is done only after editor, sender and server have returned |
| PacketRounds.RearmIsAlone | ipvs-overload-fix/runtime/packet-race.c:137-151 | for every 32-bit count: no edit overlaps the rearming; the threshold is 2 until the edit and 1 while main judges |
| PacketRounds.ErrorsTell | ipvs-overload-fix/runtime/packet-race.c:145-151 | the error numbers main reads after the barrier are those of both calls of this very round: they drained before the reports |
| PacketStop.StopDecreases | ipvs-overload-fix/runtime/packet-race.c:173-174 | after the stop every step or drain makes one measure smaller or changes nothing |
| PacketStop.StoppedRunEnds | ipvs-overload-fix/runtime/packet-race.c:47-84 | from every state with stop set that any 32-bit count reaches, three steps of each worker make it return, and three more of main finish its joins |
| PacketWrap.LastCountMisleads | ipvs-overload-fix/runtime/packet-race.c:137-155 | with 2^32 - 1 iterations the counter wraps and round 0's packet is taken for delivered although it was not |
| PacketWrap.MisledIffWraps | ipvs-overload-fix/runtime/packet-race.c:92-172 | of all 32-bit iteration counts exactly the largest has such a run |
| PacketWrap.CountsUnheardIffWraps | ipvs-overload-fix/runtime/packet-race.c:152-157 | some run comes to count a round whose packet never arrived if and only if the count is the largest: it is round 0 |
| PacketWrap.ProbeMisledIffWraps | ipvs-overload-fix/runtime/packet-race.c:158-171 | some run takes a probe for delivered that never was if and only if the count is the largest |
| PacketWrap.NumberedIffNoWrap | ipvs-overload-fix/runtime/packet-race.c:47-72 | and the calls are those of rounds 1, 2, 3, ... in every run if and only if the count is not the largest |
| NetlinkTlv.ReadBack | qdisc_uaf/gtp_repro/qdisc_uaf_gtp_repro.c:169-177 | any serialisation of a forest, whatever its padding bytes, is read back as that forest by walking and walking again inside nests |
| NetlinkTlv.RoundTrip | qdisc_uaf/gtp_repro/qdisc_uaf_gtp_repro.c:169-177 | the same for the reader that also insists on an exact end |
| NetlinkTlv.ReadIffLaid | qdisc_uaf/gtp_repro/qdisc_uaf_gtp_repro.c:169-177 | conversely: the reader accepts bytes as a forest of the given shapes if and only if the forest lies there, each attribute padded but for the last of the window or of a nest, and returns it |
| NetlinkTlv.LaidSize | qdisc_uaf/gtp_repro/qdisc_uaf_gtp_repro.c:169-177 | at most three bytes of padding are missing |
| NetlinkTlv.SpellsIsLaid | qdisc_uaf/gtp_repro/qdisc_uaf_gtp_repro.c:169-177 | a complete serialisation is one of the accepted ones |
| NetlinkWalk.WalkStaysInside | qdisc_uaf/gtp_repro/qdisc_uaf_gtp_repro.c:169-177 | on any bytes the walk ends, and its attributes lie inside the window, each behind the ones before |
| NetlinkWalk.FindKind | qdisc_uaf/gtp_repro/qdisc_uaf_gtp_repro.c:250-259 | the loop over any bytes and any int length, negative included, finds the first attribute of a kind on the walk |
| NetlinkWalk.WalkOfLeaves | qdisc_uaf/gtp_repro/qdisc_uaf_gtp_repro.c:250-259 | over a padded concatenation of attributes the walk yields exactly those, in order |
| NetlinkWalk.PackAttrSpells | cve_patches/CVE-2026-74347/verification/timeout-regression.py:18-20 | an attr() output has a length divisible by 4 and spells its attribute |
| NetlinkWalk.Attrs | cve_patches/CVE-2026-74347/verification/timeout-regression.py:23-30 | the loop computes the dictionary of the walk, and fails the assertion exactly when the walk sticks with a header left |
| NetlinkWalk.DictIsLastWins | cve_patches/CVE-2026-74347/verification/timeout-regression.py:23-30 | of the pairs whose kinds agree on 14 bits the last one's value is kept |
| NetlinkWalk.AttrsUndoAttr | cve_patches/CVE-2026-74347/verification/timeout-regression.py:18-30 | attrs of any concatenation of attr outputs is the last-wins dictionary of the pairs |
| NetlinkReplies.SplitFindsAll | cve_patches/CVE-2026-74347/verification/timeout-regression.py:42-50 | splitting a datagram finds exactly the messages it carries, the last one padded or not, with up to 15 bytes left over |
| NetlinkReplies.SplitIffCarries | cve_patches/CVE-2026-74347/verification/timeout-regression.py:42-50 | and finds messages if and only if the datagram carries them |
| NetlinkReplies.SplitUndoesPack | cve_patches/CVE-2026-74347/verification/timeout-regression.py:42-58 | messages packed byte by byte as '=IHHII' and body, padded and put together are split back into exactly those messages |
| NetlinkReplies.Receive | cve_patches/CVE-2026-74347/verification/timeout-regression.py:42-50 | the loop computes that split, with the lengths read byte by byte, and fails the assertion where one is wrong |
| NetlinkReplies.DatagramsDoNotMatter | cve_patches/CVE-2026-74347/verification/timeout-regression.py:52-68 | how the messages of a reply are spread over datagrams does not change the reply |
| NetlinkReplies.AcknowledgedReply | cve_patches/CVE-2026-74347/verification/timeout-regression.py:59-68 | a reply is every part in front of its acknowledgement, or the error whose number is the opposite of the two's-complement number in the body's first four bytes |
| NetlinkReplies.FirstOtherDecides | cve_patches/CVE-2026-74347/verification/timeout-regression.py:59-68 | the first message that is no ordinary part decides: a wrong sequence number fails the assertion, an acknowledgement finishes or refuses by its body's bytes, and nothing behind it matters |
| NetlinkReplies.OrdinaryWaits | cve_patches/CVE-2026-74347/verification/timeout-regression.py:59-68 | ordinary parts alone are collected, in order, and the client waits for more |
| NetlinkReplies.BadDatagramFails | cve_patches/CVE-2026-74347/verification/timeout-regression.py:47-60 | a datagram with a wrong length fails the assertion once everything before it left the client waiting |
| NetlinkReplies.Request | cve_patches/CVE-2026-74347/verification/timeout-regression.py:52-68 | the receiving loop computes that reply |
| NetlinkStack.NlMsg.Init | ip_rt_bug/repro_syz.c:134-143 | header type and flags, the fixed part, and zeros everywhere else |
| NetlinkStack.NlMsg.Attr | ip_rt_bug/repro_syz.c:145-154 | one attribute appended in place, nothing else changed |
| NetlinkStack.NlMsg.Nest | ip_rt_bug/repro_syz.c:156-162 | the type written, the nest pushed, no length yet |
| NetlinkStack.NlMsg.Done | ip_rt_bug/repro_syz.c:164-168 | the innermost nest popped and its length patched |
| NetlinkStack.NlMsg.Seal | ip_rt_bug/repro_syz.c:170-176 | refused exactly if overrun or a nest is open, otherwise the message length stored |
| NetlinkScript.WellBracketedIsScript | ip_rt_bug/repro_syz.c:145-168 | a call sequence is well bracketed if and only if it is the script of some forest |
| NetlinkScript.ScriptWrites | ip_rt_bug/repro_syz.c:127-168 | the script of a forest keeps to buffer and nesting array if and only if there is room, and then serialises the forest and changes nothing else |
| NetlinkScript.NestWritten | ip_rt_bug/repro_syz.c:156-168 | closing a nest makes its length cover exactly its children |
| NetlinkScript.BuildThenRead | ip_rt_bug/repro_syz.c:134-168 | build with any well-bracketed calls that fit, then walk: the tree comes back |
| NetlinkScript.RunOn | ip_rt_bug/repro_syz.c:145-168 | the calls made one after the other on a live message leave exactly that message |
| NetlinkRequest.Request.AddattrL | qdisc_uaf/qdisc_uaf_repro_gist.c:94-111 | appends exactly one attribute, or leaves the request alone if it would pass the limit |
| NetlinkRequest.Request.AddattrNestEnd | qdisc_uaf/qdisc_uaf_repro_gist.c:121-124 | the nest's length covers what was added since, and nothing else changes |
| NetlinkRequest.Request.NlattrAdd | rfs_bpf_cpumap/dev/selftests-rfs/tools/include/bpf/nlattr.h:141-158 | EMSGSIZE, EINVAL or success in the code's order, the size computed on 32 bits and negative lengths included; aligned and inside the request; earlier bytes unchanged; unchanged on error |
| NetlinkRequest.NewLengthIsAligned | rfs_bpf_cpumap/dev/selftests-rfs/tools/include/bpf/nlattr.h:146-147 | for every int length the size checked is a multiple of 4, and modulo 2^32 the aligned end plus header and length rounded up |
| NetlinkRequest.Request.NlattrBeginNested | rfs_bpf_cpumap/dev/selftests-rfs/tools/include/bpf/nlattr.h:160-168 | an empty attribute at the old tail whose type word has bit 15 set and the low 15 bits of the kind, or nothing |
| NetlinkRequest.FlaggedIsOr | rfs_bpf_cpumap/dev/selftests-rfs/tools/include/bpf/nlattr.h:165-165 | the flag is bit 15, the other bits stay, and setting it twice is setting it once |
| NetlinkRequest.Request.NlattrEndNested | rfs_bpf_cpumap/dev/selftests-rfs/tools/include/bpf/nlattr.h:170-174 | the length at the given place reaches to the aligned end |
| NetlinkRequest.BuildWrites | qdisc_uaf/qdisc_uaf_repro_gist.c:94-124 | the calls for a forest succeed if and only if it fits behind the message, and then serialise it and change nothing else |
| NetlinkRequest.BuiltForestReads | rfs_bpf_cpumap/dev/selftests-rfs/tools/include/bpf/nlattr.h:136-174 | and the walk returns the forest, for the flagging and the plain variant |
| NetlinkRequest.BuildWithAddattr | qdisc_uaf/qdisc_uaf_repro_gist.c:94-124 | the calls for a forest on a live request succeed exactly when the specification does and leave its result |
| NetlinkRequest.BuildWithNlattr | rfs_bpf_cpumap/dev/selftests-rfs/tools/include/bpf/nlattr.h:136-174 | the same for the flagging variant |
| Checksum.FoldLoop | ip_rt_bug/repro_veth.c:66-66 | the fold loop ends in the one's-complement value, for every sum |
| Checksum.FoldTwice | reproducers/qdisc_uaf_repro_bridge_gso_tcp.c:232-234 | two steps and a truncation do the same for every 32-bit sum |
| Checksum.NoOverflow | ip_rt_bug/repro_veth.c:60-68 | no 32-bit overflow up to 65537 words |
| Checksum.OverflowAt65538 | ip_rt_bug/repro_veth.c:60-68 | one word more can overflow, and then gives a wrong checksum |
| Checksum.CsumIpv4 | ip_rt_bug/repro_veth.c:60-68 | what the 32-bit loop keeps of the sum; the Internet checksum up to 65537 words |
| Checksum.IpChecksumIndexed | ip_rt_bug/repro_xfrm_race.c:200-210 | the same for the indexed loop |
| Checksum.IpChecksumTwoStep | reproducers/qdisc_uaf_repro_bridge_gso_tcp.c:220-235 | the same with the two-step fold |
| Checksum.Ipv4ChecksumNet | qdisc_uaf/qdisc_uaf_repro_gist.c:428-441 | the same in network order |
| Checksum.ByteOrder | qdisc_uaf/qdisc_uaf_repro_gist.c:428-441 | the network-order sum is 256 times the host-order one modulo 0xffff (RFC 1071 section 2(B)) |
| Checksum.NetAgrees | qdisc_uaf/qdisc_uaf_repro_gist.c:428-441 | both orders store the same field if and only if the length is even or the dropped byte is zero |
| Checksum.Rfc1071Example | qdisc_uaf/qdisc_uaf_repro_gist.c:428-441 | the eight bytes of section 3 of RFC 1071 have the sums given there, in both byte orders |
| Checksum.CsumInet.Add | ip_rt_bug/repro_syz.c:86-98 | the chunk loop adds the chunk's words into the folded accumulator |
| Checksum.ChunksJoin | ip_rt_bug/repro_syz.c:86-98 | A then B is A ++ B whenever A is even |
| Checksum.OddChunkShifts | ip_rt_bug/repro_syz.c:86-98 | and not in general |
| Checksum.ChunksAreOne | ip_rt_bug/repro_syz.c:1854-1862 | any number of chunks, all but the last even, are one buffer |
| Checksum.CsumInet.Digest | ip_rt_bug/repro_syz.c:100-103 | the complement of the folded accumulator |
| Checksum.DigestOfChunks | ip_rt_bug/repro_syz.c:1854-1867 | init, an update for each chunk and digest compute the Internet checksum of the chunks put together, if all but the last are even |
| Checksum.DigestVerifies | ip_rt_bug/repro_syz.c:1864-1867 | a digest stored in a zeroed even-aligned field makes the data sum to 0xffff |
| Checksum.PacketVerifies | ip_rt_bug/repro_syz.c:1854-1867 | the same across chunks, pseudo-header chunks included |
| BitField.ExtractBits | rfs_bpf_cpumap/dev/selftests-rfs/tools/include/bpf/bpf_core_read.h:108-112 | the two shifts yield the field, extended with zeros or its top bit |
| BitField.InsertBits | rfs_bpf_cpumap/dev/selftests-rfs/tools/include/bpf/bpf_core_read.h:138-139 | the mask replaces exactly the field's bits |
| BitField.ReadAfterWrite | rfs_bpf_cpumap/dev/selftests-rfs/tools/include/bpf/bpf_core_read.h:90-147 | reading a written field gives the value cut to its width, sign-extended if signed, for every size, shift pair and byte order |
| BitValue.ReadBackNumber | rfs_bpf_cpumap/dev/selftests-rfs/tools/include/bpf/bpf_core_read.h:90-147 | as numbers: the value written modulo 2^width, or the two's-complement value of those bits if signed |
| BitValue.FittingNumberReturns | rfs_bpf_cpumap/dev/selftests-rfs/tools/include/bpf/bpf_core_read.h:90-147 | a number that fits the field, signed or unsigned, reads back as itself |
| BitField.WriteKeepsNeighbours | rfs_bpf_cpumap/dev/selftests-rfs/tools/include/bpf/bpf_core_read.h:121-147 | every bit of memory outside the field is unchanged |
| BitField.OtherFieldUnchanged | rfs_bpf_cpumap/dev/selftests-rfs/tools/include/bpf/bpf_core_read.h:90-147 | fields that share no bit read the same after the write |
| BitField.WriteAfterRead | rfs_bpf_cpumap/dev/selftests-rfs/tools/include/bpf/bpf_core_read.h:90-147 | writing back what was read changes nothing |
| BitField.ProbedAgrees | rfs_bpf_cpumap/dev/selftests-rfs/tools/include/bpf/bpf_core_read.h:46-114 | probed and direct reads agree in both byte orders |
| BitField.StoreByBitmaskWrites | ip_rt_bug/repro_syz.c:71-75 | the mask store writes the bit-field at that offset and width |
| BitField.WriteBitfield | rfs_bpf_cpumap/dev/selftests-rfs/tools/include/bpf/bpf_core_read.h:121-147 | the macro on a live buffer leaves exactly the written memory |
| BitField.ReadBitfield | rfs_bpf_cpumap/dev/selftests-rfs/tools/include/bpf/bpf_core_read.h:90-114 | the macro on a live buffer returns the field, and 0 for a word that is not 1, 2, 4 or 8 bytes |
| BitOrder.LoadNumber | rfs_bpf_cpumap/dev/selftests-rfs/tools/include/bpf/bpf_core_read.h:102-107 | a load is the number whose digits to base 256 are the bytes, least first on a little-endian machine and last on a big-endian one |
| BitOrder.StoreNumber | rfs_bpf_cpumap/dev/selftests-rfs/tools/include/bpf/bpf_core_read.h:141-146 | a store leaves the value modulo 2^(8 size) in that order, and no other byte changes |
| BitOrder.ReadNumber | rfs_bpf_cpumap/dev/selftests-rfs/tools/include/bpf/bpf_core_read.h:90-114 | from the bytes alone: a field reads as that number divided by 2^(r - l), modulo 2^(64 - r), in two's complement if signed |
| BitOrder.OtherSizesReadZero | rfs_bpf_cpumap/dev/selftests-rfs/tools/include/bpf/bpf_core_read.h:90-114 | a word that is not 1, 2, 4 or 8 bytes reads as 0 |
| Series.LinearSeries | OLK-5.10-four-preps/verification/verify_series.py:40-53 | accepts exactly an ancestor's non-empty listing in which each row is a commit and its predecessor, and returns those commits |
| Series.AcceptedIsLinear | OLK-5.10-four-preps/verification/verify_series.py:40-53 | from any ordering of the range, what is accepted is a single-parent path from base that ends at head |
| Series.LinearUnique | OLK-5.10-four-preps/verification/verify_series.py:40-53 | there is only one such path |
| Series.LinearIsAccepted | OLK-5.10-four-preps/verification/verify_series.py:40-53 | in an acyclic history every such path is the whole range, base is an ancestor, and its listing from base up is accepted |
| Patches.ReadSeries | OLK-5.10-four-preps/verification/verify_series.py:56-74 | succeeds exactly if every named file is usable, none twice and there is one, and returns them in order |
| Patches.Verify | OLK-5.10-four-preps/verification/verify_series.py:77-117 | passes exactly if counts agree, rewriting kept the trees, the diff is clean, and patch i names commit i and takes its predecessor's tree to its tree |
| Patches.VerifiedSeriesRebuilds | OLK-5.10-four-preps/verification/verify_series.py:104-117 | the checks compose: the patches take base's tree to head's, and every prefix to its commit's |
| Patches.OneEdit | OLK-5.10-four-preps/verification/verify_series.py:104-117 | a patch of one path applies exactly if its hunks do on that path's content, or on its absence, and then writes or removes that file and no other |
| Patches.SeriesIsLocal | CVE-2026-72252/verification/verify_independent.py:17-20 | a series reads only the paths it touches and changes no other |
| Patches.IndependentMerges | CVE-2026-72252/verification/verify_independent.py:11-23 | disjoint series apply one after the other if and only if each applies alone, and the result is path by path theirs |
| Patches.IndependentCommute | CVE-2026-72252/verification/verify_independent.py:11-23 | both orders refuse, or both give the same tree |
| Patches.OverlapMatters | CVE-2026-72252/verification/verify_independent.py:11-23 | on a shared path both orders can apply and differ |
| Patches.VerifyIndependent | CVE-2026-72252/verification/verify_independent.py:11-23 | passes exactly if both orders apply and give the expected tree |
| BucketIndex.HashBitsFits | rfs_bpf_cpumap/dev/selftests-rfs/tools/include/bpf/hashmap.h:15-29 | a hash's bits are below 2^bits, for every hash and up to 64 bits |
| BucketIndex.HashBitsAreUpper | rfs_bpf_cpumap/dev/selftests-rfs/tools/include/bpf/hashmap.h:15-29 | they are the upper bits of h * 11400714819323198485 modulo 2^64, by the quotient and remainder of that product |
| BucketIndex.HashMap.EachOnce | rfs_bpf_cpumap/dev/selftests-rfs/tools/include/bpf/hashmap.h:168-170 | no entry is visited twice |
| BucketIndex.HashMap.ForEachEntry | rfs_bpf_cpumap/dev/selftests-rfs/tools/include/bpf/hashmap.h:168-170 | visits every entry of every bucket in order |
| BucketIndex.HashMap.ForEachKeyEntry | rfs_bpf_cpumap/dev/selftests-rfs/tools/include/bpf/hashmap.h:192-198 | scanning the key's bucket visits exactly what a scan of the whole map filtered by the key would, in its order: the entries with an equal key and no others |
| BucketIndex.HashMap.ForEachEntrySafe | rfs_bpf_cpumap/dev/selftests-rfs/tools/include/bpf/hashmap.h:180-184 | still visits every original entry while the body unlinks some, and exactly those are gone |
| BucketIndex.HashMap.ForEachKeyEntrySafe | rfs_bpf_cpumap/dev/selftests-rfs/tools/include/bpf/hashmap.h:200-206 | the same for one key, the rest of the map untouched |

## Left out

- System calls, sockets, tun devices, sandboxing, topology, thread pinning, delays and
  printing: their answers are parameters of the model.
- The diagnostics `edit_read` and `bind_read` of the overload program: only printed.
- The C11 memory model: the overload program calls itself an x86 model, and the packet
  race is read the same way.
- PacketTruth.ReportedPacketsArrived: says nothing of round 0, nor of the probe after the
  loop counter has wrapped, where both can be wrong; CountsUnheardIffWraps and
  ProbeMisledIffWraps say exactly for which counts.
- OverloadSafety.QuiescentFlagIsRight: says nothing of runs that wrapped the count,
  where the flag can be wrong; BudgetIsExact is the exact condition.
- OverloadSafety.WrongFlagHasRepairer: the same.
- The kernel's answer to the state file in the packet race: any answer may come, so no
  link between the observed and the configured threshold is claimed.
- Request buffers of 64 KiB and more, and attribute kinds beyond 16 bits, in the
  pointer builders: the requests of the sources are far smaller.
- NetlinkRequest.Request.NlattrAdd: a pointer with a length that is not its data's, a
  negative one included, has no defined meaning in C; nor has a length so near 2^31
  that aligning it overflows an int.
- Messages whose header claims 2^31 bytes or more, in the pointer builders.
- nla_ok and nla_next behind libbpf_nla_for_each_attr: their bodies are not part of
  the repository; the walk modelled is the one with its own NLA_OK and NLA_NEXT.
- The outer message loop of genl_family_resolve and the unchecked attribute walk of
  netlink_query_family_id: the first repeats the split of NetlinkReplies, the second
  trusts the kernel's lengths.
- The flat builder of repro_xfrm_race.c and the attribute writes of gtp_add_pdp: both
  are sequences of the attribute call already modelled.
- Native order in the Python client is taken to be little-endian, as on x86.
- The message a client sends in request: only its answers are modelled.
- A bit-field of width 0 or one reaching outside its word, and shifts of 64: undefined
  in C.
- Directory and file conflicts between different paths of a git tree, renames and file
  modes: a patch is a set of edits of single paths.
- The date and the hash length in a patch's first line: it names a commit or does not.
- hashmap_insert, hashmap_delete and growth: their bodies are not part of the
  repository; that entries sit in their buckets is a precondition, and the body of the
  safe iterations is modelled as unlinking the current entry.
- hash_bits on machines whose size_t is not 64 bits, and str_hash.
- The GTP builder's UDP length, packet layout builders, BPF helper declarations and the
  performance scripts.
