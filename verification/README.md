# A verified model of the dae-rs data path and control plane

dae-rs is a transparent proxy for Linux. An eBPF program parses packets, routes them by a
compiled rule list, remembers its decisions per connection and redirects what must be
proxied. A userspace control plane reloads the rules without interrupting readers, expires
connection entries, forwards DNS and dials proxy groups. This project models that logic in
Dafny and proves properties of every input, every run and every interleaving of it.

## Overview

| modules | subject |
|---|---|
| `MatchSets`, `RouteEngine`, `RouteSkipping`, `RuleMeaning`, `RouteFields` | the routing loop, its shortcuts, what a flat rule list means, and which packets it speaks of |
| `EpochReload`, `EpochReaders`, `EpochDomainLimit`, `EpochFailedSwitch` | reloading rules under readers, and what a failed switch leads to |
| `ConnTrack`, `ConnRuns`, `HookVerdicts`, `ConnTime`, `PressureMode`, `PublishOrder` | connection entries, what the hooks do with a packet and why, verdicts over runs, time and the janitor among packets, store order |
| `ByteStrings`, `PacketParser`, `PacketEncoding`, `PacketVerdicts`, `PacketCodes`, `RedirectKeys` | the two packet parsers, every packet's code, from bytes to verdicts, and how replies find the forward packet |
| `AddressBits`, `PacketRouting` | CIDRs as trie prefixes, and from the bytes of a packet and a configuration to the rule that decides it and the verdict |
| `DnsWire`, `DnsEncoding`, `DnsReading`, `DnsNames`, `DnsForwarding`, `DnsRuns`, `DnsAnswers`, `DnsFlights` | the DNS readers and exactly what they accept, names as cache keys, caches, which upstream answers, and queries in flight at the same time |
| `GroupDialing`, `GroupRuns` | node selection, fallback and cooldowns |
| `InterfaceMonitor`, `Glob`, `HookList` | interface scans, name patterns, hook removal |

Code that changes state is a class or a method with loops, proved against functions on
values; the main theorems are lemmas about those functions. Clock readings, route results,
upstream replies, dial outcomes, callback results and shuffles are inputs, so a statement
for all inputs covers everything these may do.

The statements assume the following of their surroundings.

- The kernel's clock does not run backwards. The janitor reads the wall clock
  (control/src/lib.rs:1823), once per sweep; its readings may differ from the kernel's in any
  way, and packets may come between any two of its calls.
- In runs of packets the handling of one packet is one step; `PublishOrder` looks inside the
  publication of a decision, where other processors read along.
- Under readers every trie of a reload is written. Clearing the domain bitmaps, writing the
  rules and the switch may fail there; a trie that fails is only logged, and
  `EpochReload.FillHoldsIffTriesLand` says when the slot still holds the rule set.
- A compiled rule set has between 1 and 1024 entries and no entry refers to an empty trie;
  `EpochReload.FillReplacesRulesIff` shows what happens to an empty one.
- Words of an address are read by a little-endian host.
- The SYN flag of a packet in `ConnTrack` is what `is_new_tcp_connection` says of the parsed
  header, so a SYN-ACK that the fast parser has read counts as a SYN there.

## Where the code does not do what it says

The lemmas named here show the case and say when the code does meet the expectation.

- A failed switch of the active slot is only logged, and the control plane advances its own
  slot, so the next reload rewrites the slot that readers use: `EpochReload.SlotsAgreeIffFlipped`,
  `EpochReaders.SafeOverlapIffInStep`, `EpochFailedSwitch.FailedSwitchBreaksAtomicity`,
  `EpochFailedSwitch.MixtureAfterFailedSwitch`.
- A trie that cannot be written is logged and the reload goes on:
  `EpochReload.FillHoldsIffTriesLand`.
- An empty rule list is not written, so the reload activates the rules left in the slot:
  `EpochReload.FillReplacesRulesIff`.
- A reload clears the domain bitmaps of the slot that readers may still use, so a call may
  answer from the first words of its bitmap only: `EpochDomainLimit.AtomicIffCutsAgree`,
  `EpochDomainLimit.EveryCutIsAnswered`, `EpochDomainLimit.DomainClearingBreaksAtomicity`.
- The fast parser drops the ACK bit, so a SYN-ACK that it reads starts a connection, and on
  the way back erases the routing of the connection it answers:
  `PacketParser.NewTcpAgreesIff`, `PacketVerdicts.ParserUnnoticedIff`,
  `PacketVerdicts.SynAckErasesRouting`.
- The comments that the bytes of a bare L3 packet do not look like an Ethernet type
  (bpf/kern/tproxy.c:648-650) and that a single redirect lookup always hits
  (bpf/kern/tproxy.c:3522-3525) are not true of packets from 8.0.0.0/16 and of some IPv6
  sources. Such a forward packet is dropped or published under a wrong key, such a reply is
  looked up under one: `RedirectKeys.Ipv4DetectionRightIff`, `RedirectKeys.Ipv4ReplyMeetsForwardIff`,
  `RedirectKeys.Ipv6ReplyMeetsForwardIff`, `RedirectKeys.BareForwardRefused`,
  `RedirectKeys.BareForwardMisses`, `RedirectKeys.BareReplyMisses`.
- IPv4 addresses are looked up in their mapped form, so an IPv6 CIDR such as `::/0` matches
  every IPv4 packet too: `AddressBits.PrefixHitIff`, `AddressBits.ShortV6MatchesIpv4Iff`.
- The two hooks treat "direct with a mark" differently: `ConnRuns.HooksAgreeIff`.
- The janitor collects keys and deletes them later without looking again, so it may delete a
  connection that has just been opened: `ConnTime.JanitorUnobservableIff`,
  `ConnTime.QuickSweepsUnobservableIff`, `ConnTime.ReuseRaceIsObservable`.
- A janitor clock that is ahead deletes live connections:
  `ConnTime.JanitorUnobservableIffClockNotAhead`, `ConnTime.FarAheadDeletesAll`.
- A sweep under pressure deletes live connections: `ConnTime.PressureDeletesLiveIff`,
  `ConnTime.PressureSweepIsObservable`.
- A direct DNS query that waits for an equal one in flight may wait for ever, because the
  notification is lost before it listens, or may send its own request, because it is woken
  before the answer is stored: `DnsFlights.WokenIff`, `DnsFlights.WakeUpCanBeLost`,
  `DnsFlights.WokenSendsIff`, `DnsFlights.SharingDependsOnOrder`.
- A node that answers within a millisecond sorts last: `GroupDialing.KnownBeatsUnknownIff`.
- A DNS label that contains a dot shares a cache key with two labels:
  `DnsNames.KeysShareIff`, `DnsNames.DottedLabelCollides`.

## Model

| member | source | states |
|---|---|---|
| RouteEngine.OrIsSum | bpf/kern/tproxy.c:1631-1633 | the shifted fields of a routing result do not overlap, so combining them bitwise is adding them |
| RouteEngine.UnpackInvertsPack | bpf/kern/tproxy.c:2658-2662 | every outbound, mark, must bit and slot come back from the packed 64-bit result, which is never negative |
| RouteEngine.UnpackIgnoresHighBits | bpf/kern/tproxy.c:2658-2662 | nothing above bit 42 of a result is looked at |
| RouteEngine.AndIsCommonBit | bpf/kern/tproxy.c:1541 | two flag bytes have a non-zero conjunction if and only if they share a bit |
| RouteEngine.IntersectIff | bpf/kern/tproxy.c:1541 | the model of that test holds if and only if some bit is in both numbers |
| RouteEngine.RouteCtx.constructor | bpf/kern/tproxy.c:1699-1745 | no rule state, no cached word, and the no-match error as the result |
| RouteEngine.RouteCtx.MatchLpm | bpf/kern/tproxy.c:1404-1431 | sets the good bit exactly when the longest-prefix lookup in the slot's trie hits; a missing trie is an error |
| RouteEngine.RouteCtx.MatchDomain | bpf/kern/tproxy.c:1443-1476 | tests the entry's bit in the destination's bitmap of the slot, loading a word at most once |
| RouteEngine.MatchFields | bpf/kern/tproxy.c:1478-1589 | the match types that read only the packet hit exactly as the specification of the entry says, in every slot and table |
| RouteEngine.RouteCtx.EvalOne | bpf/kern/tproxy.c:1478-1589 | evaluates one match set of any type against the packet, with the error codes of the source |
| RouteEngine.RouteCtx.Finalize | bpf/kern/tproxy.c:1591-1644 | ends subrules and rules, applies inversion and must_rules, packs the result of the rule that hits |
| RouteEngine.RouteCtx.LoopStep | bpf/kern/tproxy.c:1646-1697 | one iteration: looks the entry up in the slot's range, skips evaluation when the outcome cannot matter, finalizes |
| RouteEngine.LoopRules | bpf/kern/tproxy.c:1769-1772 | the bounded loop runs the iterations in order and stops at the first that says so |
| RouteEngine.Route | bpf/kern/tproxy.c:1699-1789 | the whole call: reads the active slot, bounds the loop by the slot's rule count, returns the packed result or the error |
| RouteSkipping.RunLoopIsRunList | bpf/kern/tproxy.c:1646-1697 | the indexed loop over the map is a run over the list that the slot holds |
| RouteSkipping.CachedLoopIsPlain | bpf/kern/tproxy.c:1443-1476 | for every array the one-word domain cache is invisible: every bit read through it is the bit in the map |
| RouteSkipping.SkippingIsUnobservable | bpf/kern/tproxy.c:1602-1697 | for every array that evaluates without error, the loop with skipping and caching returns what a loop returns that evaluates every entry and reads every bit afresh |
| RuleMeaning.RunSubrule | bpf/kern/tproxy.c:1602-1613 | a run over a flattened subrule is one finalization with the disjunction of its entries |
| RuleMeaning.RunCondition | bpf/kern/tproxy.c:1602-1643 | a run over a flattened rule decides it exactly when all its subrules hit, with inversion |
| RuleMeaning.RunIsChain | bpf/kern/tproxy.c:1646-1697 | a run over the flattened list is the rules one after the other |
| RuleMeaning.LoopMeansNestedRules | bpf/kern/tproxy.c:276-302 | the loop reports the first rule all of whose subrules hit |
| RuleMeaning.RouteMeansNestedRules | bpf/kern/tproxy.c:1699-1789 | meaning preservation: outbound, mark and slot of the call are those of the first nested rule all of whose subrules hit, must is its own or set by an earlier must_rules hit, and the call is negative if and only if no rule decides |
| RuleMeaning.FlattenNest | bpf/kern/tproxy.c:276-302 | every flat list that ends with the tail of a rule is the flattening of some nested rules, so the meaning theorem covers every such list |
| RouteFields.HitIffDescribed | bpf/kern/tproxy.c:1434-1589 | an entry of any kind evaluates without error, and hits if and only if the packet field it names has the property it names: destination, source or link address inside a CIDR of its number, port in range, shared protocol or version bit, process name on WAN, DSCP, or its bit in the destination's bitmap |
| RouteFields.VerdictInPacketFields | bpf/kern/tproxy.c:1434-1697 | the answer of a rule set is that of the first nested rule all of whose subrules describe the packet in these terms, and negative if none does |
| RouteFields.RouteInPacketFields | bpf/kern/tproxy.c:1699-1789 | the same of a call on maps that hold the rule set |
| RouteFields.OneEntryAnswers | bpf/kern/tproxy.c:1478-1589 | with one entry of any kind, plain or negated, and a fallback, the packet goes to the entry's outbound if and only if the entry describes it |
| RouteFields.UnreadFieldsDoNotMatter | bpf/kern/tproxy.c:1434-1589 | for every rule set, packets that agree in the fields its entries look at get the same answer |
| RouteFields.SourceDoesNotMatter | bpf/kern/tproxy.c:1434-1441 | in particular without source entries the source address and port do not matter |
| RouteFields.FaultIff | bpf/kern/tproxy.c:1404-1431 | evaluation fails if and only if the type is unknown, the slot or the trie is out of range, or the trie is missing |
| RouteFields.ActiveSlotDecides | bpf/kern/tproxy.c:1748-1761 | without an active slot a call uses slot 0, and it fails with EFAULT if and only if the active slot is not one of the two |
| RouteFields.AnswerNeedsEntries | bpf/kern/tproxy.c:1646-1697 | a call that answers was decided by an entry inside the slot's count, every entry up to it is in the map, and cutting the count after it changes nothing |
| RouteFields.FaultFailsCall | bpf/kern/tproxy.c:1646-1697 | a call that reaches such an entry fails, whatever follows |
| EpochReload.ControlPlane.WalkOrder | control/src/net/ebpf.rs:2188-2245 | a walk of the domain map visits exactly its keys |
| EpochReload.ControlPlane.ClearDomainSlot | control/src/net/ebpf.rs:2188-2245 | walks the domain map and deletes exactly the entries of the slot |
| EpochReload.ControlPlane.WriteRange | control/src/net/ebpf.rs:1526-1530 | individual updates write the match sets and then zeroes, in index order, inside the slot's range |
| EpochReload.ControlPlane.WriteRoutingRules | control/src/net/ebpf.rs:1483-1554 | a rejected batch, the individual updates, then the rule count; on failure only a prefix and no count |
| EpochReload.ControlPlane.WriteCidrTable | control/src/net/ebpf.rs:1568-1720 | creates the trie of every index that has a CIDR and whose write succeeds, inside the slot's range, and goes on after a failure |
| EpochReload.ControlPlane.Fill | control/src/lib.rs:2470-2507 | clears, then rules, then tries of the target slot; stops when the rules fail, not when a clear or a trie fails; skips an empty list |
| EpochReload.ControlPlane.Switch | control/src/lib.rs:2509-2519 | the switch, which may fail unnoticed, and then the clearing of the slot that is left |
| EpochReload.ControlPlane.WriteMaps | control/src/lib.rs:2466-2520 | all map writes of a reload in order, for every outcome of each |
| EpochReload.ControlPlane.ReloadConfig | control/src/lib.rs:2450-2551 | the exact sequence of map writes, slot and generation of a reload, whichever of clearing, rules, tries and switch fail |
| EpochReload.ReloadWritesOnlyItsSlot | control/src/lib.rs:2470-2507 | everything written before the switch, also by a failing reload, is inside the target slot's range |
| EpochReload.FillHolds | control/src/net/ebpf.rs:1483-1720 | whatever a slot held before, filling it leaves a complete copy of the rule set |
| EpochReload.FillHoldsIffTriesLand | control/src/lib.rs:2484-2507 | with failing trie writes the slot holds the rule set if and only if each trie was written or was there already |
| EpochReload.FillReplacesRulesIff | control/src/lib.rs:2474-2482 | the slot holds the new list after filling if and only if the list is not empty or the slot's count was 0 |
| EpochReload.SlotsAgreeIffFlipped | control/src/lib.rs:2510-2545 | after a completed reload the userspace slot is the active slot if and only if the switching write succeeded |
| EpochReload.FailedFlipOverwritesLiveSlot | control/src/lib.rs:2510-2545 | after a failed switch the next reload puts its rules into the slot that readers use, before it switches |
| EpochReaders.RunKeepsInvariants | control/src/lib.rs:2450-2551 | in every interleaving of single map reads and map writes, with failing rule writes and switches, the active slot stays complete as long as no reload writes to it, and a reader in flight reads a cut of its bitmap |
| EpochReaders.SeenWasLive | bpf/kern/tproxy.c:1748-1761 | the rule set a reader answers from was live when it read the slot |
| EpochReaders.ReloadIsAtomic | bpf/kern/tproxy.c:1748-1783 | in every interleaving a call returns the answer of exactly one complete rule set, the one live when it read the slot, on a cut of its domain bitmap, unless a reload writes to that slot; none does if it overlaps at most one reload, successful or failed, and the control plane's slot was the active one, as it is while no switch has failed |
| EpochReaders.AlwaysInStep | control/src/lib.rs:2509-2545 | without a failed switch the control plane's slot is the active one between reloads and for every call |
| EpochReaders.SafeOverlapIffInStep | control/src/lib.rs:2509-2545 | between reloads, a call that begins now is safe from every single reload that may overlap it if and only if the control plane's slot is the active one |
| EpochReaders.VerdictMeansNestedRules | bpf/kern/tproxy.c:276-302 | that answer is what the nested rules of the rule set say |
| EpochReaders.FailedReloadIsInvisible | control/src/lib.rs:2474-2482 | a reload whose rule write fails, wherever it fails, changes the answer of no later call |
| EpochDomainLimit.EveryReloadRuns | control/src/lib.rs:2450-2507 | every reload of a compiled rule set, with a batch of any length and failing after any number of writes, is a run of the reader system that writes its whole program |
| EpochDomainLimit.FailedReloadEnds | control/src/lib.rs:2474-2482 | a failed reload ends with the control plane's slot and the live rules as they were |
| EpochDomainLimit.ReloadEnds | control/src/lib.rs:2450-2551 | a completed reload ends with the control plane on the other slot; readers have the new rules if the switch succeeded or that slot was active already, and keep the old ones otherwise |
| EpochDomainLimit.ReaderRuns | bpf/kern/tproxy.c:1646-1697 | a reader stepping through unchanged maps runs the rules one after the other |
| EpochDomainLimit.VerdictOfCut | bpf/kern/tproxy.c:1443-1476 | a cut answers as the whole bitmap up to the cut and as no bitmap from there on |
| EpochDomainLimit.EveryCutIsAnswered | control/src/lib.rs:2516-2519 | for every cut some interleaving with at most one reload, which clears both slots whole and in which nothing fails, answers with that cut |
| EpochDomainLimit.AtomicIffCutsAgree | control/src/lib.rs:2516-2519 | every interleaving in which no reload writes to the slot of the call answers as the rule set on its whole bitmap if and only if cutting the bitmap anywhere leaves the answer as it is |
| EpochDomainLimit.CutsAgreeWithoutDomains | bpf/kern/tproxy.c:1443-1476 | so reloads are atomic for destinations without a bitmap and for rule sets without domain rules |
| EpochDomainLimit.DomainClearingBreaksAtomicity | control/src/lib.rs:2516-2519 | a run with one reload in which a call answers neither as the old rule set nor, in any slot and with any bitmap, as the new one |
| EpochFailedSwitch.CallAnswersAsHeld | bpf/kern/tproxy.c:1699-1789 | a call on maps whose active slot holds a rule set answers as the rule set does |
| EpochFailedSwitch.MixtureAfterFailedSwitch | control/src/lib.rs:2510-2545 | after a failed switch the first write of the next reload makes a call answer from the new first rule and the old fallback, before the whole reload makes it answer as the new rules |
| EpochFailedSwitch.FailedSwitchBreaksAtomicity | control/src/lib.rs:2510-2545 | a run of readers and reloads with one failed switch in which a call that overlaps a single reload answers neither as the old rule set nor as the new one |
| ConnTrack.ConnTable.constructor | bpf/kern/tproxy.c:441-447 | the table starts empty |
| ConnTrack.ConnTable.MarkUdpSeen | bpf/kern/tproxy.c:2082-2168 | refreshes, replaces when expired, or inserts the UDP entry, and touches no other |
| ConnTrack.ConnTable.MarkTcpSeen | bpf/kern/tproxy.c:2195-2309 | a SYN replaces, FIN and RST close, an expired entry goes, other packets never create one |
| ConnTrack.ConnTable.LanIngress | bpf/kern/tproxy.c:2447-2743 | entry and verdict of a LAN packet: cached decision, fresh route, fail-closed without an entry |
| ConnTrack.ConnTable.WanEgressTcp | bpf/kern/tproxy.c:2867-3069 | entry and verdict of a local TCP packet, with control-plane bypass and fail-closed insertion |
| ConnTrack.ConnTable.WanEgressUdp | bpf/kern/tproxy.c:3071-3230 | entry and verdict of a local UDP packet, republishing what it read |
| ConnTrack.ConnTable.SeeReverse | bpf/kern/tproxy.c:2344-2399 | reply traffic refreshes the entry of the reversed tuple |
| ConnTrack.JanitorSweep.constructor | control/src/net/ebpf.rs:2544-2556 | a sweep starts with its time and mode and no key |
| ConnTrack.JanitorSweep.Visit | control/src/net/ebpf.rs:2455-2505 | looks one key up and remembers it exactly when its entry is expired by the sweep's time |
| ConnTrack.JanitorSweep.DeleteFound | control/src/net/ebpf.rs:2597-2611 | deletes exactly the remembered keys, whatever their entries are by then, in a batch or one by one, and counts them |
| ConnTrack.JanitorSweep.DeleteEach | control/src/net/ebpf.rs:2507-2529 | deletes the keys one by one and counts those that were there |
| ConnTrack.JanitorScan | control/src/net/ebpf.rs:2653-2740 | a whole sweep between two packets deletes exactly the entries its predicate calls expired and counts both kinds |
| HookVerdicts.VerdictIff | bpf/kern/tproxy.c:2447-3230 | on both hooks, for every packet, entry and surroundings: it passes if and only if it is the control plane's, inbound, local, a TCP packet without a decision, or its decision is direct (on WAN without a mark), with that mark on LAN; it is redirected with exactly its decision if and only if that is another outbound, not block, alive unless remembered, recorded and redirectable |
| HookVerdicts.BlockDrops | bpf/kern/tproxy.c:2719-2743 | a block decision, new or remembered, always drops, and so does failed routing |
| HookVerdicts.ProxiedNeverPasses | bpf/kern/tproxy.c:1879-1895 | a packet with a proxied decision is never let through |
| HookVerdicts.RepliesPass | bpf/kern/tproxy.c:2344-2399 | the hooks that see replies let them pass |
| HookVerdicts.NewEntryStores | bpf/kern/tproxy.c:2665-2681 | the entry of a new connection holds exactly its decision, slot, generation, DSCP, link address, process and time, or no decision when WAN egress finds none worth storing |
| HookVerdicts.LateDecisionStores | bpf/kern/tproxy.c:3160-3181 | a UDP entry without a decision is given the one made now and keeps the rest |
| HookVerdicts.RememberedIsKept | bpf/kern/tproxy.c:3114-3181 | a packet with a remembered decision leaves it, link address and direction as they were |
| HookVerdicts.StoredWasRouted | bpf/kern/tproxy.c:2665-2681 | over every run the decision in an entry is one that the router made for a packet of its tuple |
| HookVerdicts.EveryVerdictWasRouted | bpf/kern/tproxy.c:2481-2522 | over every run the decision a packet is treated by was made for it or for an earlier packet of its tuple |
| HookVerdicts.PassedIsAccountedFor | bpf/kern/tproxy.c:2447-3230 | no leak over every run: a packet that passes is the control plane's, inbound, local, a TCP packet without a stored decision, or the router sent it or an earlier packet of its tuple direct |
| ConnRuns.TcpStep | bpf/kern/tproxy.c:2205-2309 | no event but a SYN creates a TCP entry, changes its direction or routing, or reopens a closing one |
| ConnRuns.DeletionsRun | control/src/net/ebpf.rs:2597-2611 | deleting a sweep's keys one by one, as steps of a run, removes exactly those keys |
| ConnRuns.SynInheritsNothing | bpf/kern/tproxy.c:2205-2309 | what a SYN leaves does not depend on the entry that was there |
| ConnRuns.TcpLifecycle | bpf/kern/tproxy.c:2205-2309 | over every run, an entry has one SYN that it goes back to, with the same direction bit and no return from CLOSING since |
| ConnRuns.SurvivorKeepsRouting | bpf/kern/tproxy.c:2205-2309 | as long as a TCP entry survives, any events leave its routing word, slot and generation alone |
| ConnRuns.LanTcpSticky | bpf/kern/tproxy.c:2481-2522 | after any events in between, a later LAN packet of a surviving flow is treated as its SYN was, if and only if the SYN had a route and its proxy was alive |
| ConnRuns.WanTcpSticky | bpf/kern/tproxy.c:2893-3016 | the same on WAN egress, if and only if a proxied flow finds its outbound as alive as the SYN did |
| ConnRuns.RowOfTable | bpf/kern/tproxy.c:441-447 | a run of the table does to each entry what the run of that entry alone does |
| ConnRuns.TcpStickyOnTable | bpf/kern/tproxy.c:2447-2743 | both statements about sticky flows on runs of the whole table, from any table |
| ConnRuns.HooksAgreeIff | bpf/kern/tproxy.c:1891-1895 | the two hooks treat a cached decision alike if and only if it is not direct with a mark |
| ConnRuns.UdpStep | bpf/kern/tproxy.c:3114-3181 | no packet or sweep changes the routing of a UDP entry that stays |
| ConnRuns.UdpSticky | bpf/kern/tproxy.c:2551-2569 | over every run, once a UDP entry has routing, outbound, mark, must, slot and generation stay until it is deleted, although WAN egress republishes them |
| ConnTime.LazyTimestampLag | bpf/kern/tproxy.c:2079-2107 | over every run the stored time lags the last packet by at most one second and never leads it |
| ConnTime.ExpiryWindow | bpf/kern/tproxy.c:2191-2239 | a UDP entry lives 119 s and dies after 120 s of silence, a closing TCP entry 9 s and 10 s, an active one never |
| ConnTime.SweptIsExpired | control/src/net/ebpf.rs:2694-2722 | on a clock that is not ahead, what a steady look finds expired is what a lookup would delete |
| ConnTime.ExpiredIsAbsent | bpf/kern/tproxy.c:2195-2230 | every hook treats an expired entry as no entry |
| ConnTime.RunsStaySimilar | control/src/net/ebpf.rs:2544-2611 | as long as no deletion hits a live entry, a table with the janitor and one without differ only in entries that lookups treat as expired |
| ConnTime.DeadDeletionsUnnoticed | control/src/net/ebpf.rs:2544-2611 | then every packet returns the same state and verdict as without the janitor |
| ConnTime.JanitorUnobservableIff | control/src/net/ebpf.rs:2544-2611 | for every run of packets, looks at single keys and deletions by key, in or out of pressure and on any janitor clock: no next packet can ever notice the janitor if and only if every deletion finds its entry gone or expired |
| ConnTime.QuietSweepsDeleteDead | control/src/net/ebpf.rs:2544-2611 | steady sweeps on a clock that is not ahead delete nothing live as long as no packet creates an entry of a key between its collection and its deletion |
| ConnTime.JanitorUnobservable | control/src/net/ebpf.rs:2653-2722 | so in such runs all states and verdicts are those without the janitor |
| ConnTime.QuickSweepsUnobservableIff | control/src/net/ebpf.rs:2544-2611 | steady sweeps of at most nine seconds on a clock that is not ahead are unobservable if and only if no deletion finds an entry that a packet has touched since its key was collected |
| ConnTime.ReuseRaceIsObservable | control/src/net/ebpf.rs:2597-2611 | a tuple used again between collection and deletion: the new connection's data is redirected without the janitor and passes unproxied with it |
| ConnTime.PressureDeletesLiveIff | control/src/net/ebpf.rs:2709-2722 | a pressure sweep deletes an entry that lookups keep if and only if it is an active TCP entry idle for more than ten minutes |
| ConnTime.PressureSweepIsObservable | control/src/net/ebpf.rs:2709-2722 | a flow that is redirected without the sweep and passes unproxied after it |
| ConnTime.JanitorUnobservableIffClockNotAhead | control/src/lib.rs:1823-1826 | steady sweeps with no key created between collection and deletion are unobservable in all runs if and only if the janitor's clock is not ahead of the kernel's |
| ConnTime.FarAheadDeletesAll | control/src/net/ebpf.rs:2694-2722 | a clock ahead by more than the UDP timeout deletes every UDP entry and every closing one |
| PressureMode.Janitor.constructor | control/src/lib.rs:1812-1813 | the janitor starts in steady state |
| PressureMode.Janitor.Observe | control/src/lib.rs:1873-1899 | one round changes mode and counter by the measured usage, and not at all without one |
| PressureMode.InPressureIff | control/src/lib.rs:1812-1899 | over every run the janitor is in pressure mode if and only if there was a measurement above 70 % since which there were never three in a row below 50 % |
| PublishOrder.ReadersSeeWholeDecision | bpf/kern/tproxy.c:397-403 | with one publisher per entry and each store a step, a reader that sees the flag obtains the whole decision and its side fields, in every interleaving |
| PublishOrder.DifferentDecisionsCanTear | bpf/kern/tproxy.c:2665-2681 | when a second publisher differs in outbound and mark, some interleaving mixes the two |
| PacketParser.ParseTransportFast | bpf/kern/tproxy.c:833-1068 | the direct-access parser, with the offset bound over eight extension headers, returns the code and headers of its specification |
| PacketParser.FastIpv4 | bpf/kern/tproxy.c:894-955 | IPv4 with options and fragments over the linear part |
| PacketParser.FastIpv6 | bpf/kern/tproxy.c:957-1065 | IPv6 with the extension header loop over the linear part |
| PacketParser.FastHop | bpf/kern/tproxy.c:989-1017 | one pass of the extension header loop over the linear part |
| PacketParser.FastL4 | bpf/kern/tproxy.c:922-954 | the transport headers, without the ACK bit |
| PacketParser.ParseTransportSlow | bpf/kern/tproxy.c:1071-1228 | the copying parser returns the code and headers of its specification |
| PacketParser.SlowIpv4 | bpf/kern/tproxy.c:1108-1145 | IPv4 through copies |
| PacketParser.SlowIpv6 | bpf/kern/tproxy.c:1147-1225 | IPv6 through copies, one byte at a time in the extension headers |
| PacketParser.SlowHop | bpf/kern/tproxy.c:1158-1195 | one pass of the extension header loop through copies |
| PacketParser.SlowL4 | bpf/kern/tproxy.c:1126-1144 | the transport headers through copies |
| PacketParser.ParseTransport | bpf/kern/tproxy.c:1231-1240 | whatever part of the packet is linear, the code and, on success, the whole parsed context are those of the slow parser, except that the ACK bit may be lost |
| PacketParser.DetectLinkLength | bpf/kern/tproxy.c:652-672 | the link header length that the hooks work with: 14 when the pull succeeds and the bytes look like an Ethernet type that equals the protocol, else 0 |
| PacketParser.HopRefines | bpf/kern/tproxy.c:989-1017 | one pass of both loops does the same whenever the fast one does not give up |
| PacketParser.WalkRefines | bpf/kern/tproxy.c:989-1017 | the two extension header walks agree whenever the fast one does not give up |
| PacketParser.FastRefinesSlow | bpf/kern/tproxy.c:833-1240 | for every packet and link header length, unless the fast parser falls back, both return the same code, protocol, listener, five-tuple, DSCP and headers but for the ACK bit |
| PacketParser.NewTcpAgreesIff | bpf/kern/tproxy.c:2338-2341 | both paths agree on whether a packet opens a connection if and only if it is not a SYN-ACK |
| PacketParser.OffsetBounded | bpf/kern/tproxy.c:989-1017 | through eight extension headers the offset stays below 54 + 8 * 2048 |
| PacketEncoding.WalkDecodes | bpf/kern/tproxy.c:1158-1197 | over any encoded chain the walk reaches the transport header if there are at most eight extension headers, and stops on an extension header otherwise |
| PacketEncoding.L4Decodes | bpf/kern/tproxy.c:1126-1144 | ports and flags of every encoded TCP or UDP header are recovered |
| PacketEncoding.Ipv4RoundTrip | bpf/kern/tproxy.c:1108-1145 | every encoded IPv4 packet, with any options and link, gives back addresses, ports, protocol, DSCP, flags and listener |
| PacketEncoding.Ipv6RoundTrip | bpf/kern/tproxy.c:1147-1225 | every encoded IPv6 packet is parsed and recovered if it has at most eight extension headers and refused otherwise |
| PacketEncoding.FastReadsIpv4 | bpf/kern/tproxy.c:860-955 | when the 128-byte pull succeeds, the fast path parses every encoded IPv4 packet and does not fall back |
| PacketEncoding.FastReadsIpv6 | bpf/kern/tproxy.c:957-1065 | the fast path parses every encoded IPv6 packet with at most eight extension headers whose headers end inside the linear part |
| PacketEncoding.SynAckLooksNewToFastPath | bpf/kern/tproxy.c:928-936 | every encoded SYN-ACK is taken for a new connection on the fast path and not on the slow one |
| PacketVerdicts.SamePacketUnlessSynAck | bpf/kern/tproxy.c:1259-1287 | what the hooks take from a packet is the same from both parsers but for the new-connection flag of a SYN-ACK |
| PacketVerdicts.ParserUnnoticedUnlessSynAck | bpf/kern/tproxy.c:2447-2470 | for every packet that is not a SYN-ACK, every hook leaves the same table and verdict whichever parser read it |
| PacketVerdicts.ParserUnnoticedIff | bpf/kern/tproxy.c:2313-2341 | a TCP packet read by the fast parser is handled as after the slow one, in every table and surroundings, if and only if it is not a SYN-ACK |
| PacketCodes.Ipv4Codes | bpf/kern/tproxy.c:894-955 | for every IPv4 header and any bytes after it, on any link: malformed, later fragment, unsupported or parsed, by its own fields, and unless it is malformed addresses, protocol and DSCP come back |
| PacketCodes.Ipv4CutShort | bpf/kern/tproxy.c:1108-1115 | a header that is cut short is malformed |
| PacketCodes.OtherProtocolsUnsupported | bpf/kern/tproxy.c:1225-1228 | what is neither IPv4 nor IPv6 is unsupported |
| PacketCodes.Ipv6Codes | bpf/kern/tproxy.c:957-1065 | the same for every IPv6 header, any chain of extension headers and anything after it: no next header, later fragments, ICMPv6, headers cut short and the limit of eight |
| PacketCodes.EveryIpv6 | bpf/kern/tproxy.c:957-1065 | every byte string of at least 40 bytes with version 6 is such a packet, so the codes above are those of all of them |
| PacketCodes.EveryIpv4 | bpf/kern/tproxy.c:894-955 | every byte string of at least 20 bytes with version 4 is an IPv4 packet of the kind above |
| PacketCodes.CodeDecides | bpf/kern/tproxy.c:2462-2468 | whatever part is linear, on every hook: malformed packets are dropped, unparsed ones and ICMPv6 pass, and the table stays as it is |
| PacketCodes.Ipv4FragmentsPass | bpf/kern/tproxy.c:919-920 | every later IPv4 fragment passes every hook and touches no entry |
| PacketCodes.Ipv6FragmentsPassIff | bpf/kern/tproxy.c:989-1003 | a later IPv6 fragment passes if and only if fewer than eight extension headers precede it, and is dropped otherwise |
| PacketCodes.Ipv4PacketRead | bpf/kern/tproxy.c:1259-1287 | the hooks take both ends, protocol, DSCP, flags and link address of every encoded IPv4 packet |
| PacketCodes.Ipv6PacketRead | bpf/kern/tproxy.c:1259-1287 | and of every encoded IPv6 packet that is parsed |
| PacketCodes.Ipv4SameEntryIff | bpf/kern/tproxy.c:441-447 | two IPv4 packets belong to one entry if and only if addresses, ports and protocol are the same |
| PacketCodes.Ipv6SameEntryIff | bpf/kern/tproxy.c:441-447 | the same for IPv6 |
| PacketCodes.Ipv4ReplyFindsEntry | bpf/kern/tproxy.c:2371-2384 | a reply's reversed tuple is that of the packet it answers |
| AddressBits.BitsOfInjective | bpf/kern/tproxy.c:1740-1746 | different addresses have different trie keys |
| AddressBits.PrefixHitIff | control/src/routing/matcher.rs:2123-2150 | the prefix written for a CIDR is a prefix of an address's key if and only if the CIDR matches the address: as written within a family, through the mapped form across families |
| AddressBits.ShortV6MatchesAllOrNone | control/src/routing/matcher.rs:2136-2140 | an IPv6 CIDR of at most 96 bits matches either every IPv4 address or none |
| AddressBits.ShortV6MatchesIpv4Iff | control/src/routing/matcher.rs:2136-2140 | one of at most 80 bits matches them if and only if its bits are zero |
| PacketRouting.MacKeyIsPadded | bpf/kern/tproxy.c:2575-2584 | the four words built from the sender's link address are ten zero bytes and that address |
| PacketRouting.MacListedIff | control/src/routing/matcher.rs:1838-1872 | the entry written for a link address matches that address and no other |
| PacketRouting.ParsedIsReadable | bpf/kern/tproxy.c:894-1065 | whatever the bytes are, the parsed headers have what the hooks pass to the router |
| PacketRouting.Ipv4Asks | bpf/kern/tproxy.c:2643-2649 | every encoded IPv4 packet, on any link, at either hook and with either parser: the router is asked about its own source, destination, ports, protocol, DSCP, sender, and on WAN egress its process |
| PacketRouting.Ipv6Asks | bpf/kern/tproxy.c:2643-2649 | and every encoded IPv6 packet that is parsed |
| PacketRouting.DescribesIffSays | control/src/routing/matcher.rs:749-800 | an entry of any kind describes the arguments if and only if the configuration says so of the header: an address in a listed CIDR, a listed link address, TCP or UDP, version 4 or 6, ports, DSCP, process |
| PacketRouting.HeaderIsRouted | bpf/kern/tproxy.c:1699-1789 | a call on maps that hold a compiled configuration answers with the first rule that applies to the header, and fails if none does |
| PacketRouting.Ipv4IsRouted | bpf/kern/tproxy.c:2643-2662 | from bytes: every encoded IPv4 packet is routed by the first rule of the configuration that applies to its own header |
| PacketRouting.Ipv6IsRouted | bpf/kern/tproxy.c:2643-2662 | and every encoded IPv6 packet that is parsed |
| PacketRouting.Ipv4SynFollowsRules | bpf/kern/tproxy.c:2447-2746 | from bytes and configuration to verdict, on both hooks and for every table: the first packet of a connection is dropped if its rule blocks it or no rule applies, passes if and only if its rule is direct (on WAN egress without a mark), and is otherwise handed over with the rule's outbound and mark whenever the outbound answers and entry and redirect succeed |
| PacketRouting.Ipv6SynFollowsRules | bpf/kern/tproxy.c:2867-3068 | the same for IPv6 |
| PacketVerdicts.SynErasesRouting | bpf/kern/tproxy.c:2371-2384 | a reply taken for a SYN erases routing and direction of the entry it answers; otherwise it keeps both |
| PacketVerdicts.SynAckBytesErase | bpf/kern/tproxy.c:2371-2384 | on any bytes that the fast parser reads and that are a SYN-ACK: routing and direction of the live entry answered are erased; with the slow parser both are kept |
| PacketVerdicts.SynAckErasesRouting | bpf/kern/tproxy.c:2371-2384 | so it is with every encoded IPv4 SYN-ACK whose 128-byte pull succeeds, read at the right offset |
| PacketVerdicts.Ipv6SynAckErasesRouting | bpf/kern/tproxy.c:2371-2384 | and with every encoded IPv6 SYN-ACK with at most eight extension headers whose headers end inside the linear part |
| RedirectKeys.GtIsStrictTotalOrder | bpf/kern/tproxy.c:592-601 | the address comparison is irreflexive, transitive and total |
| RedirectKeys.CanonicalLaws | bpf/kern/tproxy.c:1985-1993 | canonicalisation is idempotent and ignores direction |
| RedirectKeys.CanonicalIsOrdered | bpf/kern/tproxy.c:1985-1993 | a key holds the two normalised addresses with the lesser one first |
| RedirectKeys.KeysMeetIff | bpf/kern/tproxy.c:573-601 | two tuples share a key if and only if their normalised unordered address pairs are equal |
| RedirectKeys.NormalizeConfusesIff | bpf/kern/tproxy.c:573-583 | normalising identifies two addresses if and only if they are equal or forms of one non-zero IPv4 address |
| RedirectKeys.AddressesConfusedIff | bpf/kern/tproxy.c:573-583 | in bytes: two addresses are identified if and only if they are equal or embed the same non-zero IPv4 address after ten zero bytes and two bytes of all zeros or all ones |
| RedirectKeys.MappedKeysMeetIff | bpf/kern/tproxy.c:573-601 | two pairs of IPv4 addresses share a key if and only if they are the same two addresses |
| RedirectKeys.PublishKey | bpf/kern/tproxy.c:1968-2002 | the key published for a forward packet is canonical |
| RedirectKeys.LoadRedirectTupleFast | bpf/kern/tproxy.c:3334-3412 | unless it falls back, the fast load gives the swapped addresses of the packet |
| RedirectKeys.LoadRedirectTupleSlow | bpf/kern/tproxy.c:3414-3473 | the slow load gives the swapped addresses exactly when the header is there |
| RedirectKeys.LoadRedirectTuple | bpf/kern/tproxy.c:3475-3504 | the lookup key is the same whatever part of the packet is linear |
| RedirectKeys.Ipv4MeetsIff | bpf/kern/tproxy.c:1934-2002 | on any bytes of a forward packet and a reply: the reply finds the entry if and only if the parser accepts a header where the hook starts, and the bytes of both sides spell the same two addresses |
| RedirectKeys.Ipv6MeetsIff | bpf/kern/tproxy.c:3414-3504 | the same for IPv6, up to the two forms of an IPv4 address |
| RedirectKeys.Ipv4DetectionRightIff | bpf/kern/tproxy.c:652-672 | a hook starts at the right offset of an IPv4 packet if and only if the packet has an Ethernet header and the pull succeeds, or has none and the pull fails or its source is outside 8.0.0.0/16 |
| RedirectKeys.Ipv6DetectionRightIff | bpf/kern/tproxy.c:652-672 | the same for IPv6, where the fifth and sixth byte of the source must not spell the Ethernet type |
| RedirectKeys.Ipv4ReplyMeetsForwardIff | bpf/kern/tproxy.c:1934-2002 | from bytes to keys, for every IPv4 packet that a hook reads at the offset it detects and every reply with swapped addresses, on any links: the reply finds the entry if and only if what was published and what is looked up are the same two addresses; they are when both start at the right offset |
| RedirectKeys.Ipv6ReplyMeetsForwardIff | bpf/kern/tproxy.c:3414-3504 | the same for every IPv6 packet with any chain of extension headers |
| RedirectKeys.Ipv4OffsetRightIff | bpf/kern/tproxy.c:3349-3358 | the header of an IPv4 reply is found if and only if it has an Ethernet header or its source is outside 8.0.0.0/16 |
| RedirectKeys.Ipv6OffsetRightIff | bpf/kern/tproxy.c:3423-3434 | the same for IPv6 replies |
| RedirectKeys.BareReplyMisses | bpf/kern/tproxy.c:3522-3525 | every bare UDP reply from 8.0.0.0/16 without options and with a zero payload of any length misses the entry of a forward packet that was read right |
| RedirectKeys.Ipv6BareReplyMisses | bpf/kern/tproxy.c:3522-3525 | so does every bare IPv6 UDP reply with a short payload whose source spells the Ethernet type |
| RedirectKeys.BareForwardRefused | bpf/kern/tproxy.c:648-650 | every bare forward packet from 8.0.0.0/16 whose third address byte is below 5 modulo 16 is malformed to the hooks, so it is dropped and nothing is published |
| RedirectKeys.BareForwardMisses | bpf/kern/tproxy.c:648-650 | bare UDP packets from 8.0.69.0/24 between suitable ports are published under a key of zeroes, so no reply read right finds them |
| RedirectKeys.Ipv6BareForwardMisses | bpf/kern/tproxy.c:648-650 | bare IPv6 UDP packets with a short payload whose source spells the Ethernet type are refused, so no reply finds an entry |
| DnsWire.ScanName | control/src/net/dns.rs:990-1008 | the loop ends where the name ends, or fails, on any bytes |
| DnsWire.ScanQuestionName | control/src/net/dns.rs:84-105 | the question's labels, lower-cased, or nothing when one is malformed, compressed or not UTF-8 |
| DnsWire.ParseDnsQuery | control/src/net/dns.rs:73-119 | on any bytes, id, dotted name, type and EDNS of the first question, or nothing |
| DnsWire.ParseEdns | control/src/net/dns.rs:126-151 | on any bytes, whether a well-formed OPT record follows and its DO bit |
| DnsWire.ScanRecord | control/src/net/dns.rs:920-935 | on any bytes, the fixed fields and the end of one resource record, or nothing |
| DnsWire.ParseResponseMinTtl | control/src/net/dns.rs:888-944 | on any bytes, the time to live of a response, or nothing |
| DnsWire.ParseAnswers | control/src/net/dns.rs:920-943 | the least TTL of the answers |
| DnsWire.ParseNegativeTtl | control/src/net/dns.rs:952-987 | the negative caching time of the first SOA, 0 without one |
| DnsWire.AsciiIsUtf8 | control/src/net/dns.rs:98-100 | ASCII labels are accepted |
| DnsReading.Utf8Iff | control/src/net/dns.rs:98-100 | a label is accepted as text if and only if it is the UTF-8 encoding of Unicode scalar values |
| DnsReading.LowerIdentifiesIff | control/src/net/dns.rs:98-100 | folding case identifies the two cases of one ASCII letter and nothing else |
| DnsReading.ReadNameIff | control/src/net/dns.rs:80-112 | on any bytes a question name is read if and only if it is the encoding of text labels up to the root, and these are returned in lower case |
| DnsReading.SkipNameIff | control/src/net/dns.rs:990-1008 | on any bytes a name is skipped if and only if it is the encoding of labels up to the root or a pointer |
| DnsReading.EdnsOfAnyBytes | control/src/net/dns.rs:126-151 | every byte string is a list of records and then something that is not one, and the EDNS scan finds the first OPT of the list |
| DnsReading.QueryIff | control/src/net/dns.rs:73-124 | any bytes are taken for a query if and only if the header counts a question and a whole first question with text labels is there |
| DnsReading.QueryOfAnyBytes | control/src/net/dns.rs:73-151 | and then the query is that question with the EDNS of the records after it |
| DnsReading.TtlOfAnyBytes | control/src/net/dns.rs:888-987 | any bytes that get a positive time to live are a response whose own records grant it: that many answers with that least TTL, or for NOERROR and NXDOMAIN without answers the first SOA |
| DnsReading.LeastIsLeast | control/src/net/dns.rs:921-943 | the time of a list of records is the TTL of one of them and at most that of each |
| DnsEncoding.QueryRoundTrip | control/src/net/dns.rs:73-151 | every encoded single-question query with UTF-8 labels and any records gives back id, lower-cased dotted name, type, and EDNS and DO of the first OPT record |
| DnsEncoding.ResponseRoundTrip | control/src/net/dns.rs:888-987 | every encoded response gives the least answer TTL, or without answers min(TTL, MINIMUM, 3600) of the first SOA for NODATA and NXDOMAIN and 0 for other codes |
| DnsNames.JoinsAgreeIff | control/src/net/dns.rs:115 | two lists of labels have one dotted name if and only if cutting their labels at dots gives the same pieces |
| DnsNames.KeysShareIff | control/src/net/dns.rs:599-616 | two encoded queries share a cache key if and only if they have the same type, EDNS and DO, and the same pieces |
| DnsNames.DotFreeKeysShareIff | control/src/net/dns.rs:599-616 | without dots in labels they share it if and only if type, EDNS, DO and lower-cased labels are equal |
| DnsNames.DottedLabelCollides | control/src/net/dns.rs:115 | every label with a dot inside gives a query with the cache key of the two labels it looks like |
| DnsForwarding.DnsCache.constructor | control/src/net/dns.rs:837-841 | a cache starts empty |
| DnsForwarding.DnsCache.Get | control/src/net/dns.rs:847-854 | an entry of the key that has not expired |
| DnsForwarding.DnsCache.Insert | control/src/net/dns.rs:857-880 | stores with its expiry, after making room; a zero TTL changes nothing |
| DnsForwarding.MakeRoom | control/src/net/dns.rs:868-873 | leaves fewer than 2048 entries, all of them old ones, and loses none below capacity |
| DnsForwarding.FullCacheKeepsUnexpiredIff | control/src/net/dns.rs:868-873 | a full cache loses exactly its expired entries, unless 2048 or more are unexpired: then it loses all |
| DnsForwarding.CacheNamesDiffer | control/src/net/dns.rs:451-453 | different outbounds use different caches |
| DnsForwarding.RewriteId | control/src/net/dns.rs:1011-1016 | sets the id and changes no other byte |
| DnsForwarding.DnsForwarder.constructor | control/src/net/dns.rs:238-282 | a forwarder starts without caches |
| DnsForwarding.DnsForwarder.GetCache | control/src/net/dns.rs:641-647 | the cache of the name, created empty, and no change to any cache's content |
| DnsForwarding.DnsForwarder.CachedLookup | control/src/net/dns.rs:599-616 | a fresh entry with the query's id, nothing when caching is off |
| DnsForwarding.DnsForwarder.CacheStore | control/src/net/dns.rs:619-638 | stores exactly responses with a positive TTL, when caching is on |
| DnsForwarding.DnsForwarder.Put | control/src/net/dns.rs:440-447 | a response goes to the cache of the outbound it came through and to no other |
| DnsForwarding.DnsForwarder.ForwardDirect | control/src/net/dns.rs:494-506 | a direct fallback enters the direct cache only |
| DnsForwarding.DnsForwarder.ForwardGroup | control/src/net/dns.rs:466-519 | under the group's lock: second lookup, proxy, fallback |
| DnsForwarding.DnsForwarder.ResolveDirect | control/src/net/dns.rs:396-449 | the direct branch of a query that meets no equal one in flight: reply and all caches afterwards |
| DnsForwarding.DnsForwarder.ResolveGroup | control/src/net/dns.rs:451-562 | the group branch: reply and all caches afterwards |
| DnsForwarding.DnsForwarder.Resolve | control/src/net/dns.rs:381-564 | reply and all caches afterwards, for every query |
| DnsRuns.LastStoreIsLast | control/src/net/dns.rs:857-880 | the last store under a key is one, and none follows it |
| DnsRuns.EntryIsLastStore | control/src/net/dns.rs:857-880 | over every run, whatever a cache holds under a key is what was last stored there |
| DnsRuns.StoreFacts | control/src/net/dns.rs:619-638 | what is stored is the reply of the outbound the cache belongs to, for the query's own key, with its own positive TTL |
| DnsRuns.HitsAreFreshAndIsolated | control/src/net/dns.rs:381-564 | over every run, a cached answer is the latest positive-TTL response for its outbound, name, type, EDNS and DO, fetched through that outbound, served at a lookup before its expiry, and differs only in the id |
| DnsRuns.CachesAreBounded | control/src/net/dns.rs:868-873 | over every run no cache holds more than 2048 entries |
| DnsRuns.NothingIsLost | control/src/net/dns.rs:857-880 | below capacity a key is held if and only if it was stored |
| DnsRuns.HitIffStoredAndFresh | control/src/net/dns.rs:381-564 | below capacity a query is answered from its outbound's cache if and only if the last response stored for its key has not expired |
| DnsRuns.RefusalOfAnyBytes | control/src/net/dns.rs:1019-1037 | a refusal of any bytes, cut short or not, has their id (or 0), QR, their RD bit when it is there, the low four bits of the code, one question, no record, and every byte after the header |
| DnsRuns.BlockedAnswerEchoesQuery | control/src/net/dns.rs:392-394 | the answer to a blocked name has flags QR, the query's RD and NXDOMAIN, no record, and parses to the same id and question |
| DnsAnswers.NoQueryNoAnswer | control/src/net/dns.rs:381-383 | bytes that are not a query are not answered |
| DnsAnswers.BlockedIsRefused | control/src/net/dns.rs:392-394 | a blocked query is answered with an NXDOMAIN response to its own question, and nothing is asked or stored |
| DnsAnswers.HitIsServed | control/src/net/dns.rs:396-410 | a hit is answered with the stored response under the query's id |
| DnsAnswers.MissIsAsked | control/src/net/dns.rs:433-562 | a miss is answered with the group's proxy answer if the group can be asked and answers, otherwise with the direct one if there is one, and the response is stored for its own TTL in the cache of the outbound that gave it |
| DnsAnswers.FallsBackIff | control/src/net/dns.rs:480-560 | a group's query is answered directly if and only if there is no dialer, no server or no proxy answer |
| DnsAnswers.GroupDoesNotLeak | control/src/net/dns.rs:451-519 | the outcome of a group whose proxy answers does not depend on the direct upstream |
| DnsAnswers.DirectUsesNoProxy | control/src/net/dns.rs:396-449 | a direct or blocked query does not depend on a proxy |
| DnsAnswers.OnlyOwnCacheRead | control/src/net/dns.rs:641-647 | an outcome depends on no cache but its outbound's own |
| DnsAnswers.GroupCachesIgnoreDirect | control/src/net/dns.rs:440-519 | over every run, what the direct upstream says to any query never reaches the cache of a group |
| DnsAnswers.GroupAnswersIgnoreDirect | control/src/net/dns.rs:451-519 | so over every run a group whose proxy answers gives the same answers whatever the direct upstream says or has said |
| DnsAnswers.AskedAgainIsServed | control/src/net/dns.rs:599-638 | a stored response answers the same key again until it expires, from its outbound's cache |
| DnsAnswers.FallbackIsNotCachedForGroup | control/src/net/dns.rs:494-506 | a direct fallback leaves the group's cache as it was |
| DnsFlights.RunKeeps | control/src/net/dns.rs:411-448 | in every interleaving of direct queries, whoever is registered is in flight with that key, and whoever waits, waits for a query of the same key that has sent its request |
| DnsFlights.NothingStaysRegistered | control/src/net/dns.rs:689-706 | when all queries are done no registration is left |
| DnsFlights.WokenIff | control/src/net/dns.rs:416-419 | in every reachable state a query that waits can ever go on if and only if the query it waits for is still registered under its key |
| DnsFlights.WakeUpCanBeLost | control/src/net/dns.rs:702-706 | a run after which a query waits for ever, whatever the upstream answered and whatever happens |
| DnsFlights.CachedAnswersAreFresh | control/src/net/dns.rs:396-448 | in every interleaving an answer from the cache, at the first lookup or after waiting, was stored for the query's own key through the direct outbound, has not expired, and differs only in the id |
| DnsFlights.WokenSendsIff | control/src/net/dns.rs:417-432 | a woken query sends its own request if and only if the cache has no fresh entry of its key when it looks |
| DnsFlights.SharingDependsOnOrder | control/src/net/dns.rs:439-448 | the same two queries and answer lead to two requests when the woken query looks before the store, and to one when the store comes first |
| GroupDialing.PoolMeaning | control/src/group.rs:188-198 | the pool is the living nodes in selector order, or all nodes when none lives |
| GroupDialing.SortMeaning | control/src/group.rs:207-218 | the order by sort key is a permutation, ascending, with ties in selector order |
| GroupDialing.OrderIsUnique | control/src/group.rs:207-218 | there is only one such order, so any stable sort yields it |
| GroupDialing.CandidatesMeaning | control/src/group.rs:188-220 | under every policy a permutation of the pool, ordered as the policy says |
| GroupDialing.CandidatesByLatency | control/src/group.rs:207-218 | under the latency policies, in the nodes' own latencies: quicker nodes first, ties in selector order, unknown latencies after known ones and in selector order |
| GroupDialing.KnownBeatsUnknownIff | control/src/group.rs:207-218 | a node that answered sorts before one of unknown latency if and only if its dial took a millisecond or more |
| GroupDialing.WalkDials | control/src/group.rs:241-260 | a pass dials the candidates up to and including the first that answers, or all of them |
| GroupDialing.WalkMarks | control/src/group.rs:91-105 | exactly the dialled nodes that failed are marked dead, the one that answered is alive with its latency, no other changes |
| GroupDialing.GroupDialer.constructor | control/src/group.rs:129-136 | all nodes alive with unknown latency, no cooldown |
| GroupDialing.GroupDialer.CollectPool | control/src/group.rs:189-198 | the scan collects the pool |
| GroupDialing.GroupDialer.OrderedCandidates | control/src/group.rs:188-220 | the candidates of the policy |
| GroupDialing.GroupDialer.MarkAlive | control/src/group.rs:91-97 | the node lives, with its latency, and no other changes |
| GroupDialing.GroupDialer.MarkDead | control/src/group.rs:100-105 | the node is dead for 60 seconds, keeps its latency, and no other changes |
| GroupDialing.GroupDialer.DialInTurn | control/src/group.rs:241-260 | nodes, dialled list and winner of a pass; success clears the cooldown |
| GroupDialing.GroupDialer.TryDial | control/src/group.rs:229-268 | the whole dial: fast failure, pass, and cooldown after a full failure |
| GroupRuns.NodeShowsLastMark | control/src/group.rs:73-105 | over every run a node's state is what its last dial showed |
| GroupRuns.LatencyIsLastAnswer | control/src/group.rs:91-105 | over every run a node's latency is that of its last answer, whatever failed since |
| GroupRuns.FirstDialIsQuickest | control/src/group.rs:207-268 | over every run the node dialled first is the candidate whose last answer was quickest |
| GroupRuns.CandidatesAvoidDeadWindows | control/src/group.rs:188-198 | over every run the candidates are exactly the nodes outside their 60 s dead window, or all nodes if every one is inside |
| GroupRuns.NoDialInDeadWindow | control/src/group.rs:229-268 | no node is dialled inside its dead window unless every node was inside its own |
| GroupRuns.CooldownShowsLastPass | control/src/group.rs:156-179 | the group's cooldown is set exactly after a pass that failed on every candidate |
| GroupRuns.FastFailIff | control/src/group.rs:229-236 | a dial fails fast, dialling and changing nothing, if and only if the last pass failed fully less than 10 s before |
| GroupRuns.PassUsesFirstAnswer | control/src/group.rs:241-268 | any other dial succeeds with the first candidate that answers, or has tried them all, and tries at least one |
| InterfaceMonitor.ReplayAlternates | control/src/net/iface_mgr.rs:328-354 | a log in turn alternates binds and unbinds for every interface, and says which are bound |
| InterfaceMonitor.ScanKeepsTurns | control/src/net/iface_mgr.rs:242-354 | a scan's events are all in turn and lead to the bound set of the specification, whichever callbacks fail |
| InterfaceMonitor.CleanScanBindsWanted | control/src/net/iface_mgr.rs:328-345 | after a scan the bound interfaces are exactly the wanted ones if and only if no bind failed |
| InterfaceMonitor.ScanBindsIff | control/src/net/iface_mgr.rs:328-345 | after a scan an interface is bound if and only if it exists and matches the pattern (or is a target) and was bound before or binds now |
| InterfaceMonitor.RunsAlternate | control/src/net/iface_mgr.rs:157-354 | over every sequence of scans and failures, successful binds and unbinds strictly alternate, and an interface is bound if and only if its last switch was a bind |
| InterfaceMonitor.Monitor.constructor | control/src/net/iface_mgr.rs:142-149 | nothing tracked, nothing bound |
| InterfaceMonitor.Monitor.Register | control/src/net/iface_mgr.rs:157-219 | binds everything wanted once and forgets what failed |
| InterfaceMonitor.Monitor.Enrol | control/src/net/iface_mgr.rs:165-192 | everything wanted is tracked before its callback runs |
| InterfaceMonitor.Monitor.NewLinks | control/src/net/iface_mgr.rs:263-278 | the links that match and are not tracked |
| InterfaceMonitor.Monitor.NewTargets | control/src/net/iface_mgr.rs:283-294 | the default-route interfaces that are not bound |
| InterfaceMonitor.Monitor.DispatchBinds | control/src/net/iface_mgr.rs:329-346 | calls every callback once, in order, and forgets exactly those that fail |
| InterfaceMonitor.Monitor.DispatchUnbinds | control/src/net/iface_mgr.rs:347-354 | calls every unbind once, in order |
| InterfaceMonitor.Monitor.Scan | control/src/net/iface_mgr.rs:242-354 | binds exactly what is wanted and not bound, unbinds exactly what is bound and not wanted, once each |
| Glob.MatchDecomposes | control/src/net/iface_mgr.rs:405-421 | every match cuts the name into one fitting piece per pattern character |
| Glob.DecompositionMatches | control/src/net/iface_mgr.rs:405-421 | every such cut is a match |
| Glob.MatchIff | control/src/net/iface_mgr.rs:405-421 | a pattern matches if and only if there is such a cut |
| HookList.SwapRemoveKeepsOthers | control/src/net/ebpf.rs:1403-1404 | removal by swapping removes one element and keeps all others |
| HookList.EbpfManager.Find | control/src/net/ebpf.rs:1391-1396 | exactly the positions of the interface's hooks, ascending |
| HookList.EbpfManager.DetachByIface | control/src/net/ebpf.rs:1388-1415 | detaches exactly the interface's hooks, once each, and leaves the multiset of the others unchanged |

## Left out

- EpochReload.ControlPlane.ClearDomainSlot: the clearing is modelled as its comment documents it; the raw command numbers and pointers that it passes (control/src/net/ebpf.rs:2201-2232) are not.
- Raw `bpf` calls, batch fallbacks beyond their order of writes, pinning and attaching: foreign calls; maps are Dafny maps.
- LRU eviction of `conn_state_map`: when it happens is not modelled; what it does to an entry is a deletion, which the runs allow at any time.
- `RoutingHandoffConsumer`: it overwrites entries from decisions of a matcher that is not part of this model; runs are without it.
- The rule compiler and domain matcher: `route` of the forwarder and the flattening are taken from the encoding that the kernel reads.
- DnsForwarding.DnsForwarder.ResolveDirect: the method is sequential, so it never waits; waiting among concurrent queries is the subject of `DnsFlights`.
- Sessions of `forward_via_proxy`: their upstream replies are inputs.
- Matching of upstream replies to queries: network I/O.
- DnsForwarding.DnsForwarder.Resolve: the system resolver list and `pick_direct_server` are one input, whether a direct upstream is found.
- InterfaceMonitor.Monitor.Scan: one registered pattern; several patterns share the set of tracked interfaces and are not modelled.
- Regular expressions as interface patterns: any predicate on names takes their place.
- GroupDialing.GroupDialer.TryDial: `try_udp_dial` is the same code with another kind of connection and is not written twice.
- PacketParser.ParseTransport: fields that no verdict reads (sequence numbers, window, checksums, lengths) are not part of the headers.
- ConnTrack.ConnTable.WanEgressTcp: process lookup by socket cookie and rewriting of the packet are inputs or left to the verdict class.
- The UDP tracker that the janitor loop also asks for expired keys: small set updates; its deletions are deletions by key like the janitor's.
- PacketVerdicts.ParserUnnoticedIff: NDP redirects, which LAN egress drops, are not told apart from other ICMPv6.
- Debug counters, events, socket lookup, listener assignment, REST API, CLI, namespaces, configuration parsing: plumbing or easy members.
