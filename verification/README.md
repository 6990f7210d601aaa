# A verified model of hopscotch

hopscotch joins nodes into an overlay mesh. Each node keeps a hop-count
distance-vector table over its live sessions, forwards overlay IPv6 packets by
that table, finds names by flooding, and tunnels internet traffic through exit
nodes. This project models that behaviour in Dafny and proves what it promises.

`dafny verify dfyconfig.toml` checks the whole project.

## How it is laid out

| module | role |
|---|---|
| Base, Distance | vocabulary; hop distance in a session graph |
| Rib, Router | one node's route table: as functions on values, and as the object the program updates in place, proved equal |
| Lifecycle | one node's sessions over whole runs, lock by lock: replacement, late teardown, holddown |
| AnyRun | the metric lower bound when anything may be lost, repeated, reordered or replaced |
| Mesh, MeshInvariant, Convergence | many nodes over FIFO streams: loop freedom and exactness while sessions only come up |
| DefaultRoutes, Termination, Convergent | the default routes; an end to triggered updates, with exact tables, where no advertisement lists a default twice |
| Decay, Stabilize, Churn | after any sessions come, go and are replaced: counting to infinity is bounded, and sixteen epochs make every table exact |
| Sentinels, Storm | what an exit's doubly listed default does: exactly when the change flag lies, and a mesh whose triggered updates repeat for ever |
| Checksum, Mss, Packets, Buffers | checksums, MSS clamping and packet construction on bytes; Buffers holds the in-place versions |
| Forward, Handler | one handling of an overlay packet, and what follows from any number of them; Handler is the in-place version |
| Shortest, Trace, TraceExact, TraceLost | next hops on a converged mesh, and traceroute over it: to a node in reach, and to one the way to is lost |
| Echo, Names, EchoLocal, EchoFlood, EchoPath, EchoExact, EchoReach | the named echo: names, one node's part, and over a mesh its end, the truth of replies, and exactly which answers are possible |
| Framer, Netlink | the stream framer with its receive loop, and netlink attributes |

Code that works by changing state is a class or a method on arrays here too,
with an `ensures` that gives the new state as a function of the old one; the
properties are then lemmas about that function and about runs of it.

## Findings

Where the code and a comment or document disagree, the model follows the code.

* The comment at internal/node/route.go:92 says a direct neighbour is one hop
  away "regardless of advertisements". It is so exactly when the
  advertisement's last listing of its own sender, if any, has metric 0
  (`Lifecycle.NeighbourOneHopIff`); a sender that lists itself at 5 becomes six
  hops away (`Lifecycle.NeighbourSixHopsAway`). Every advertisement the program
  builds does list its sender at 0.
* `onSessionDown` checks for a replacement under one lock and sweeps the table
  under another. A live session keeps its direct route at every event but one:
  the sweep of a teardown whose peer has registered and come up again since the
  check (`Lifecycle.LiveDirectUnlessSwept`, with a run in
  `Lifecycle.RedialDuringTeardown`).
* docs/routing.md:103 says an omitted route is dropped at once; the code holds
  it for three seconds (`Lifecycle.OmissionOutlastsHolddown`).
* A session that is torn down before its own `onSessionUp` runs
  (internal/node/node.go:818-822) leaves a route with no session behind it
  (`Lifecycle.TeardownBeforeUp`), which stays until that peer connects again
  (`Lifecycle.OrphanRouteStays`). That order is the only way to such a route
  (`Lifecycle.RoutesAreBacked`).
* An exit that holds a default route of its own lists that default twice in one
  advertisement, at 0 and at its metric. A sole exit is enough: `handleRoutes`
  takes an exit's own default back from a peer.
  - The receiver applies both listings and ends one hop beyond the exit's own
    route instead of one hop from the exit (`Sentinels.ExitHidesItself`).
  - A route that was there already counts as changed and is advertised again.
    `Sentinels.SpuriousChangeIff` and `Sentinels.FlagWithoutChangeIff` say
    exactly when the change flag is set with nothing changed.
  - Triggered advertisement then need not end: three connected nodes, one of
    them an exit, can return to the state they were in by writes and reads
    alone, every queue being read on the way (`Storm.TriggeredUpdatesRepeat`).
  - Where no advertisement lists a default twice none of this happens:
    triggered advertisement ends (`Termination.TriggeredUpdatesEnd`) and every
    default metric is the distance to the nearest exit
    (`DefaultRoutes.DefaultsAreExact`).
* `StreamFramer.Write` records an oversized length only at the head of its
  buffer; behind a complete frame it goes unreported until that frame has been
  taken and bytes are written again (`Framer.OversizeSeenIff`,
  `Framer.OversizeHidden`).
* A named echo can be answered "no route" although a holder is in reach: the
  first dead end to answer uses up the waiters on the way back. It can happen
  exactly when a node with no session but one lies within 128 hops of the
  caller, past nodes that neither hold the name nor have a holder next to them
  (`EchoReach.NoRouteIff`, and `EchoReach.DeadEndDefeatsCall` for the shortest
  case). A holder's answer is possible exactly when one lies within 129 hops
  (`EchoReach.FoundIff`).
* A traceroute hop that timed out can still carry an address: that of any other
  packet for the prober that reached the tap meanwhile (`Trace.TimeoutIff`).
* `udp6` and `nla` truncate lengths to 16 bits; their round trips hold exactly
  for what fits (`Packets.UdpRoundTripIff`, `Netlink.RoundTripIff`).

## Model

| member | source | states |
|---|---|---|
| Router.Router.Establish | internal/node/node.go:795-802 | a new session replaces an older one of the same peer, which is returned for closing |
| Router.Router.OnSessionUp | internal/node/route.go:40-51 | installs the peer at metric 1, unmarked, then sends the table to it and to every session |
| Router.Router.DeleteVia | internal/node/route.go:65-73 | deletes the routes through one peer, leaves every other route exactly as it was, and reports whether there were any to delete |
| Router.Router.OnSessionDown | internal/node/route.go:54-79 | sweeps the peer's routes, and no others, unless a newer session took over; announces only if something went |
| Router.Router.ReadLoopExit | internal/node/node.go:828-837 | unregisters the session only if it is still the registered one, then tears down |
| Router.Router.HandleRoutes | internal/node/route.go:82-152 | the new table is the specification's for the whole advertisement; re-advertises exactly when something changed |
| Router.Router.WithdrawMissing | internal/node/route.go:130-146 | the closing loop marks or deletes exactly the omitted routes of the sender |
| Router.Router.SweepOne | internal/node/route.go:133-145 | one omitted route: marked first, deleted when its mark is holddown old |
| Router.Router.ExpireStaleRoutes | internal/node/route.go:155-171 | deletes exactly the routes with an expired mark, announcing if any |
| Router.Router.AdvertiseRoutes | internal/node/route.go:174-178 | every live session gets exactly one split-horizon view of the table |
| Router.Router.SendRoutesTo | internal/node/route.go:181-212 | own address at 0, sentinels if an exit, then each route not learned from the receiver once, at its metric |
| Router.AnnouncedToAll | internal/node/route.go:174-212 | an announcement tells every session exactly once, each the metric held unless the route leads through that peer or is infinite |
| Router.Router.NextHop | internal/node/packet.go:387-400 | the route's session unless that is the ingress, else the destination's own session unless that is, else none |
| Router.Router.RouteNextHop | internal/node/route.go:308-320 | the live session of the entry's next hop, none at infinity or without a session |
| Rib.HandleRoutesAt | internal/node/route.go:99-146 | an advertisement's effect on one destination is one update, whatever else it lists and in whatever order |
| Rib.HandleRoutesAtPeer | internal/node/route.go:92-129 | the sender's own route after its advertisement |
| Rib.HandleRoutesAtSelf | internal/node/route.go:110-112 | a node never routes to itself |
| Rib.UnchangedKeepsRoutes | internal/node/route.go:147-151 | an unset change flag means no route, next hop or metric moved |
| Rib.AdvertisedUla | internal/node/route.go:181-202 | what a receiver reads off an advertisement: the sender at 0, else the sender's metric unless learned from the receiver |
| AnyRun.MetricNeverBelowDistance | internal/node/route.go:40-212 | in every run, with loss, replacement, reordering and expiry, metrics lie in 1..15 and never below the distance over all sessions ever held, or to the nearest exit |
| MeshInvariant.RunKeepsInv | internal/node/route.go:40-212 | the invariant tying tables, advertisements in flight and advertisements owed holds throughout |
| Convergence.NextHopIsCloser | internal/node/route.go:99-146 | with advertisements in flight, a route's next hop is a session peer strictly closer by its own table, and no route is marked |
| Convergence.ChainReachesOwner | internal/node/route.go:308-320 | next-hop chains follow sessions, visit no node twice and end at the owner within `metric` hops |
| Convergence.RoutesOnlyImprove | internal/node/route.go:99-171 | while sessions only come up no event deletes, marks or worsens a route |
| DefaultRoutes.RunKeepsInvD | internal/node/route.go:40-212 | where no advertisement lists a default twice, the link invariant holds of the default routes too, every exit at metric 0 |
| DefaultRoutes.DefaultsAreExact | internal/node/route.go:82-212 | and once nothing is in flight every default metric outside the exits is the hop distance to the nearest exit |
| Convergence.QuiescentIsExact | internal/node/route.go:82-212 | once nothing is in flight every metric is the true hop distance if that is at most 15, and there is no entry otherwise |
| Termination.ChangedMeansCloser | internal/node/route.go:122-151 | where no advertisement lists a default twice, a set change flag means that some metric fell, that an exit read from a non-exit, or that an exit first reached another exit in one hop |
| Termination.TriggeredRunIsBounded | internal/node/route.go:148-178 | if no advertisement lists a default twice, in particular without exits, writes and reads alone go on for at most rank steps, the rank falling at each |
| Termination.TriggeredUpdatesEnd | internal/node/route.go:148-178 | the same after any run in which sessions came up |
| Convergent.StuckIsQuiescent | internal/node/route.go:174-212 | when nothing can be written or read nothing is owed or in flight |
| Convergent.TriggeredUpdatesConverge | internal/node/route.go:40-212 | under the same condition triggered updates always stop, and stop with exact tables, the defaults included |
| Storm.TriggeredUpdatesRepeat | internal/node/route.go:82-212 | three connected nodes with one exit reach, all handshakes done, a state to which writes and reads alone lead back, every queue read in between |
| Storm.NoRankWithAnExit | internal/node/route.go:148-212 | so from there triggered runs of every length exist: no bound holds with a single exit |
| Sentinels.SpuriousChangeIff | internal/node/route.go:99-129 | listings set the flag and leave the table as it was if and only if some default is listed twice and ends where it was, at the sender's metric plus one or at no entry from 15, and every other listing leaves its entry alone |
| Sentinels.FlagWithoutChangeIff | internal/node/route.go:82-152 | the whole handler re-advertises an unchanged table if and only if, besides, the sender is already direct and no omitted route is due for a mark or deletion |
| Sentinels.ExitHidesItself | internal/node/route.go:114-129 | a receiver of a doubly listed default ends one hop beyond the exit's own route, or with none |
| Sentinels.SettledDefaultReadvertises | internal/node/route.go:185-202 | an instance of the flag set without a change |
| Decay.EpochRaisesFloor | internal/node/route.go:99-171 | each epoch raises by one the least metric of an untrue route, one whose next hop is not that close to the destination |
| Decay.CountingToInfinityIsBounded | internal/node/route.go:99-212 | after fifteen epochs on a fixed topology every route of every table is true, whatever was held and in flight before |
| Stabilize.EpochFirms | internal/node/route.go:99-212 | each epoch makes the tables of nodes one hop further from a destination right, and keeps the nearer ones right |
| Stabilize.SixteenEpochsHeal | internal/node/route.go:82-212 | from any tables and any advertisements in flight, sixteen epochs on a fixed topology make every metric the hop distance, with no entry beyond 15 |
| Churn.LossSparesOthers | internal/node/route.go:54-79 | the end of a session costs its node the routes via that peer and nothing else, other nodes nothing; each remaining peer is owed one advertisement if anything went |
| Churn.WhatIsOwed | internal/node/route.go:40-178 | which handler runs leave a peer owed an advertisement, and how many: a new session, a change, an expiry, a refresh |
| Churn.HistoryKeepsSane | internal/node/route.go:40-212 | session losses, replacements and set-ups in any order keep what the results on epochs start from |
| Churn.EpochsExist | internal/node/node.go:878-893 | with both ends of every session present any number of epochs can follow, in any state |
| Churn.ChurnHeals | internal/node/route.go:40-212 | however sessions have come, gone and been replaced, sixteen epochs after the last change every table is exact |
| Churn.DepartedIsForgotten | internal/node/route.go:53-212 | once the last peer of a departed node has noticed, in its own time, fifteen epochs remove every route to it |
| Lifecycle.RoutesAreBacked | internal/node/route.go:53-79 | throughout a run every route is via a peer with a session object whose teardown is not finished, if and only if no session comes up after its own teardown |
| Lifecycle.TeardownBeforeUp | internal/node/node.go:818-837 | the run in which a session torn down before it came up leaves a route and no session |
| Lifecycle.OrphanRouteStays | internal/node/route.go:65-73 | such a route stays until its peer connects again |
| Lifecycle.NewestStaysRegistered | internal/node/node.go:792-837 | the newest session of a peer stays registered until its own read loop ends, whatever older ones do |
| Lifecycle.SessionsComeAndGo | internal/node/node.go:795-837 | what registers a session, what unregisters it and no other, and when its teardown is over |
| Lifecycle.TeardownsSpareOthers | internal/node/route.go:53-79 | however teardowns interleave, a route goes if and only if a session of its next hop is swept; all others, of any length, stay exactly as they were |
| Lifecycle.LiveDirectUnlessSwept | internal/node/route.go:54-73 | a live session keeps its direct route at an event if and only if the event is not a sweep after a redial |
| Lifecycle.LiveSessionsAreDirect | internal/node/node.go:792-837 | with check and sweep undivided every live session's peer is one hop away, late teardowns of replaced sessions included |
| Lifecycle.RedialDuringTeardown | internal/node/route.go:58-73 | the run in which the divided check and sweep cost a new session its route |
| Lifecycle.NeighbourOneHopIff | internal/node/route.go:92-129 | exactly when a direct neighbour is one hop after its own advertisement |
| Lifecycle.NeighbourSixHopsAway | internal/node/route.go:92-129 | an advertisement that makes it six hops |
| Lifecycle.OmissionOutlastsHolddown | internal/node/route.go:130-171 | where an expiry or an omitting advertisement may delete a route, it does if and only if for at least the holddown every advertisement of the next hop has omitted the route |
| Checksum.FoldKeepsResidue | internal/node/packet.go:721-723 | folding keeps the sum modulo 65535 and is zero only for zero |
| Checksum.TotalFits | internal/node/packet.go:706-720 | the 32-bit accumulator cannot overflow on 65535 bytes |
| Checksum.StoredChecksumVerifies | internal/node/packet.go:705-729 | with the computed checksum stored, the pseudo-header's bytes, length included, and the payload add up to 0xffff; as one number they are a multiple of 65535. Odd lengths and the UDP zero case included |
| Checksum.StoredChecksumVerifies4 | internal/node/packet.go:626-646 | the same for TCP over IPv4, over its own pseudo-header, at any header length |
| Checksum.AddsUpIff | internal/node/packet.go:714-723 | words added and carries folded give 0xffff exactly for byte strings that, read as one number, are a positive multiple of 65535 |
| Checksum.ChecksumRange | internal/node/packet.go:724-729 | a UDP checksum is never zero, any other never 0xffff |
| Checksum.AddWords | internal/node/packet.go:715-720 | the word loop computes the word sum modulo 2^32 |
| Checksum.FoldSum | internal/node/packet.go:721-723 | the folding loop terminates with the folded sum |
| Checksum.ComputeTransportChecksum | internal/node/packet.go:706-729 | the program's loops compute the checksum of the specification |
| Checksum.ComputeIPv4TCPChecksum | internal/node/packet.go:626-646 | likewise over IPv4 |
| Mss.ClampOnParsed | internal/node/packet.go:663-690 | the option list survives, each MSS option above the limit lowered to it, none else changed |
| Mss.ClampKeepsOptions | internal/node/packet.go:649-698 | the same read from the whole packet, whose header stays where it was |
| Mss.ClampChangesOnlyMssAndChecksum | internal/node/packet.go:649-698 | a byte that changes is in the checksum or in an MSS value above the limit |
| Mss.ParseInvertsEncode | internal/node/packet.go:660-690 | the walk reads back any option list as a sender lays it out, with or without padding |
| Mss.SynIsClamped | internal/node/packet.go:571-698 | every TCP SYN, told by its bytes, leaves with each MSS option at most the limit and every other option as it was |
| Mss.ClampedIff | internal/node/packet.go:571-698 | a packet is changed if and only if it is a SYN with an MSS option above the limit |
| Mss.ClampTwiceIsOnce | internal/node/packet.go:649-698 | clamping is idempotent, on IPv4 and IPv6 |
| Mss.ClampedPacketVerifies | internal/node/packet.go:691-696 | a changed packet leaves with a checksum its receiver accepts |
| Mss.WalkOptions | internal/node/packet.go:660-690 | the walk terminates on any bytes, equals the specification and copies before its first write |
| Mss.ClampTCPMSS | internal/node/packet.go:649-698 | the whole IPv6 clamp, never writing to its input |
| Mss.ClampIPv4TCPMSS | internal/node/packet.go:571-624 | the whole IPv4 clamp, never writing to its input |
| Base.Be16IsNumber | internal/node/packet.go:780-785 | the two bytes of a port or length are the digits of its number in base 256, most significant first |
| Packets.UdpRoundTripIff | internal/node/packet.go:751-794 | parsing inverts building exactly when the length fits 16 bits |
| Packets.UdpFields | internal/node/packet.go:769-794 | the datagram's header, ports, lengths and payload, field by field |
| Packets.ParsesAsUdpIff | internal/node/packet.go:751-767 | exactly what is read as a datagram, and as which |
| Packets.UdpChecksumVerifies | internal/node/packet.go:769-799 | datagrams carry a valid checksum, zero sent as 0xffff |
| Packets.IcmpErrorFields | internal/node/packet.go:517-554 | errors go to the offender's source, fit the MTU, carry type, code and parameter, quote its head and verify |
| Packets.AddressTests | internal/node/packet.go:526-529 | which addresses count as unspecified and multicast, IPv4-mapped ones included |
| Packets.ErrorWithheldIff | internal/node/packet.go:517-529 | no error is built exactly about what is not IPv6, about errors, and for unspecified or multicast senders |
| Packets.EchoReplyFields | internal/node/packet.go:802-816 | replies swap the addresses, keep the payload, restart the hop limit and verify |
| Packets.EchoProbeFields | internal/node/traceroute.go:230-246 | a probe is a valid echo request with the given hop limit |
| Packets.EncapsulatedFields | internal/node/exit.go:34-57 | what is wrapped, and the wrapper field by field |
| Packets.DecapsulatesIff | internal/node/exit.go:60-86 | exactly which packets are tunnel packets for a node, and what they carry |
| Packets.TunnelRoundTripIff | internal/node/exit.go:34-86 | unwrapping inverts wrapping at any hop limit exactly for mesh sources |
| Buffers.Udp6Buffer | internal/node/packet.go:769-794 | field by field writes build that datagram |
| Buffers.IcmpErrorBuffer | internal/node/packet.go:517-554 | field by field writes build that error, or none |
| Buffers.EchoReplyBuffer | internal/node/packet.go:802-816 | the copied and patched request is that reply, or none |
| Buffers.EchoProbeBuffer | internal/node/traceroute.go:230-246 | field by field writes build that probe |
| Buffers.EncapsulateExitBuffer | internal/node/exit.go:34-57 | field by field writes build that tunnel packet, or none |
| Forward.ForwardedOrReported | internal/node/packet.go:237-270 | a transit packet moves on one hop to another peer, its MSS clamped to 1220, or its sender gets exactly the error that fits: hop limit, no route or size |
| Forward.InjectedOrReported | internal/node/packet.go:237-270 | a packet from the local TUN leaves without losing a hop, its MSS clamped, or the TUN gets exactly the error that fits |
| Forward.UnwrittenErrorIsDropped | internal/node/packet.go:504-514 | an error the transport does not take is dropped and causes no other |
| Forward.OwnPacketsArrive | internal/node/packet.go:212-236 | whatever a peer sends to the node's own address is delivered, and echo requests are answered where there is no TUN or stack |
| Forward.PeerPacketLostIff | internal/node/packet.go:145-270 | exactly which packets from a peer vanish at a node |
| Forward.TunPacketLostIff | internal/node/packet.go:145-270 | exactly which packets from the local TUN vanish |
| Forward.NeverBack | internal/node/packet.go:387-400 | exactly which session a packet takes: its route's if that is below infinity and live, else the destination's own, never the one it came by |
| Forward.HandlingSendsLighter | internal/node/packet.go:145-270 | a handling sends at most one packet, from a peer a strictly lighter one |
| Forward.NoErrorAboutError | internal/node/packet.go:504-527 | an ICMP error causes nothing but itself, one hop on (RFC 4443 section 2.4) |
| Forward.CascadeIsBounded | internal/node/packet.go:145-270 | one injected packet causes at most 387 handlings, whatever tables and transports do in between |
| Forward.RelaysOnlyCountDown | internal/node/packet.go:237-263 | relays change nothing of a non-TCP packet but the hop limit |
| Forward.ClientWraps | internal/node/packet.go:159-201 | a client's internet packet, IPv4 or IPv6, leaves wrapped to the exit with its MSS clamped |
| Forward.TunnelDelivers | internal/node/exit.go:34-86 | client packets leave the exit byte for byte, credited to the client, after any chain of relays within the hop limit |
| Forward.TunnelEndToEnd | internal/node/packet.go:159-235 | from the client's TUN through any relays to the exit's egress: what leaves is the client's packet, IPv4 or IPv6, with its MSS clamped |
| Forward.TunnelReturns | internal/node/packet.go:176-200 | and the replies reach the client's stack byte for byte |
| Handler.HandlePacket | internal/node/packet.go:145-157 | the in-place handling has the specified outcome and writes nothing of the buffer but the hop limit |
| Handler.HandleIPv6 | internal/node/packet.go:176-270 | likewise for IPv6, branch by branch |
| Handler.HandleExitFromTUN | internal/node/packet.go:159-174 | likewise for traffic into a tunnel |
| Handler.Onwards | internal/node/packet.go:237-270 | likewise for the forwarding branch |
| Forward.InnerClamp | internal/node/packet.go:557-569 | tunnelled packets are clamped to 1200 by their own version, anything else is left alone |
| Handler.ClampInnerTCPMSS | internal/node/packet.go:557-569 | clamps by IP version and passes anything else on, never writing to its input |
| Handler.SendICMPError | internal/node/packet.go:504-514 | likewise for errors, to the peer or to the local TUN |
| Shortest.NearerHop | internal/node/route.go:308-320 | on a converged mesh the next hop is a peer exactly one hop nearer |
| Shortest.RouteMetricIsDistance | internal/node/route.go:323-340 | on a converged mesh the metric reported for a destination is its hop distance, and there is none beyond 15 hops |
| Shortest.MetricIsSymmetric | internal/node/route.go:82-152 | and metrics are the same both ways |
| Trace.AwaitReply | internal/node/traceroute.go:92-126 | the hop recorded is the first acceptable packet at the tap, else a timeout |
| Trace.TimeoutIff | internal/node/traceroute.go:92-126 | a hop times out exactly when no answer arrives, and still names a node exactly when something else for the prober did |
| Trace.HopIsFirstAnswer | internal/node/traceroute.go:104-126 | a hop's address and verdict are those of the first packet for the prober of ICMPv6 type 1, 3 or 129 |
| Trace.TimeoutAddress | internal/node/traceroute.go:104-126 | a hop that timed out carries the source address of the last packet for the prober, whatever that was |
| Trace.TracedMeans | internal/node/traceroute.go:69-131 | what a finished trace says, by packet types: reached exactly if the last probe's first answer is an echo reply, and otherwise 32 hops, or as many as asked for up to 255 |
| Trace.TraceRoute | internal/node/traceroute.go:69-131 | the probe loop: one hop per hop limit, ending at the first echo reply or the limit |
| TraceExact.ReplyReturns | internal/node/packet.go:212-270 | a reply is forwarded all the way back to the prober despite ingress exclusion |
| TraceExact.ProbeAnswered | internal/node/packet.go:212-270 | a probe is answered once, by the node where its hop limit ends or by its destination |
| TraceExact.TraceIsExact | internal/node/traceroute.go:35-131 | tracing a node k hops away lists the next-hop path, time exceeded at each node but the last, whose echo reply ends it |
| TraceLost.TraceEndsUnreachable | internal/node/traceroute.go:69-131 | tracing a node the way to is lost lists the nodes of the way that is left, then unreachable from its last node to the limit, and does not end as reached |
| TraceLost.NoRouteIsAstray | internal/node/packet.go:250-256 | a prober with neither a route nor a session to the destination is itself where the way ends |
| Echo.ParsedNameIsFixed | internal/identity/names.go:13-32 | a parsed name parses to itself, so relays see the name the caller asked for |
| Names.ParsesToIff | internal/identity/names.go:13-32 | exactly which strings are read as which name: a letter and up to 62 letters, digits and hyphens, in any case, white space around |
| Echo.EchoNode.SessionByName | internal/node/echo.go:62-73 | a session with the name if there is one, none only if there is none |
| Echo.EchoNode.DispatchEcho | internal/node/echo.go:165-188 | to a named session, else to all but the sender; an error exactly when nothing was sent |
| Echo.EchoNode.HandleEchoMsg | internal/node/echo.go:126-162 | answers, drops duplicates, or forwards with the hop counted and a way back kept |
| Echo.EchoNode.FinishEcho | internal/node/echo.go:196-216 | the waiter is consumed and exactly one party told |
| Echo.EchoNode.CompleteEcho | internal/node/echo.go:191-193 | a reply from a session finishes its call |
| Echo.EchoNode.ClearEcho | internal/node/echo.go:219-223 | forgets one waiter |
| Echo.EchoNode.StartEcho | internal/node/echo.go:87-106 | a call up to its wait: bad name, own name, failed dispatch, or a fresh number with a waiter and the flood sent |
| EchoLocal.FloodIsExact | internal/node/echo.go:175-188 | a flood reaches every session that takes it once, except the one it came from |
| EchoLocal.DispatchIsExact | internal/node/echo.go:165-188 | who gets a message passed on, and exactly when and why there is an error |
| EchoLocal.EchoSettled | internal/node/echo.go:126-162 | what becomes of every echo: answered, dropped, passed on with a way back kept, or refused with nothing kept |
| EchoLocal.UnparsedIsDropped | internal/node/echo.go:127-130 | an echo whose name does not parse is dropped: no waiter, no message, no answer |
| EchoLocal.ReplySettled | internal/node/echo.go:191-216 | a reply goes to whoever waits for it, once, and to nobody else |
| EchoLocal.FailedCallLeavesNothing | internal/node/echo.go:87-106 | a call keeps its waiter exactly if somebody was written to |
| EchoLocal.CallLeaves | internal/node/echo.go:87-106 | a call leaves with 128 hops to go to whom it should |
| EchoFlood.HandleSpends | internal/node/echo.go:126-216 | a handling spends more of the flood's measure than it leaves behind |
| EchoFlood.StepEnergy | internal/node/echo.go:126-216 | every delivery in the mesh lowers the measure, cycles and re-forwarding included |
| EchoFlood.FloodTerminates | internal/node/echo.go:126-216 | c calls cause at most c (1 + d (d + 2)^129) deliveries on a graph of degree d |
| EchoPath.AcceptedRepliesAreTrue | internal/node/echo.go:87-216 | an accepted reply's path is a session walk of at most 129 hops to a holder of the name, with its address; no call is answered twice |
| EchoReach.NoRouteIff | internal/node/echo.go:126-216 | some run answers a call "no route" if and only if a dead end other than the caller lies within 128 hops past nodes that know of no holder |
| EchoReach.FoundIff | internal/node/echo.go:126-216 | some run answers a call with a holder if and only if one lies within 129 hops |
| EchoReach.NeighbourIsFound | internal/node/echo.go:62-188 | if a session peer goes by the name and the two writes go through, the call is told such a peer's address over the one-hop path, whatever the order of sessions |
| EchoReach.DeadEndDefeatsCall | internal/node/echo.go:159-208 | one dead end beside the caller can answer the call whoever holds the name |
| Framer.FormatIs | internal/backend/framer.go:28-95 | the format of a frame, written and read: four bytes of length, most significant first, at most 1 MiB |
| Framer.DecodeAfter | internal/backend/framer.go:70-95 | sent frames decode first whatever follows, and leave the rest untouched |
| Framer.DecodeIsExact | internal/backend/framer.go:70-95 | the decoded frames' wire form and the rest are the stream |
| Framer.DecodeWireIff | internal/backend/framer.go:28-36 | a stream is the wire form of exactly the frames it decodes to without rest |
| Framer.OversizedEnds | internal/backend/framer.go:86-95 | nothing after an oversized length is decoded |
| Framer.OversizeSeenIff | internal/backend/framer.go:39-52 | an oversized length is recorded exactly when no complete frame precedes it |
| Framer.OversizeHidden | internal/backend/framer.go:39-52 | one frame in front hides it until taken |
| Framer.EncodeFrameBuffer | internal/backend/framer.go:28-36 | the fresh buffer is the wire form, none above 1 MiB |
| Framer.StreamFramer.Write | internal/backend/framer.go:39-52 | appends unless failed, and fails exactly on an oversized head |
| Framer.StreamFramer.HasFrame | internal/backend/framer.go:62-67 | true exactly while a frame of the stream is undelivered |
| Framer.StreamFramer.NextFrame | internal/backend/framer.go:70-83 | delivers the frames of the one chunk-independent decoding in order, all of them if drained |
| Framer.StreamFramer.PeekFrame | internal/backend/framer.go:86-95 | the length of a complete head frame |
| Framer.TcpSession.Recv | internal/backend/tcp.go:103-136 | the next undelivered frame, or a timeout, the end, a read error or an oversized length, each exactly when it should be: reads go on while there is nothing to hand out and stop nowhere earlier |
| Netlink.ParseIsLastWins | internal/tun/rtnetlink_linux.go:171-190 | parsing encoded attributes gives each type its last non-empty value, padding notwithstanding |
| Netlink.BrokenTailIgnored | internal/tun/rtnetlink_linux.go:171-190 | parsing stops at the first attribute with too small a length or cut short, which adds nothing |
| Netlink.PaddingOptional | internal/tun/rtnetlink_linux.go:171-190 | the last attribute may lack its padding |
| Netlink.ParsedSizes | internal/tun/rtnetlink_linux.go:171-190 | from arbitrary bytes only values a length field can announce |
| Netlink.RoundTripIff | internal/tun/tun_linux.go:355-363 | one attribute survives exactly when not empty and at most 65531 bytes |
| Netlink.NlaU32RoundTrip | internal/tun/tun_linux.go:366-370 | a 32-bit attribute reads back, in either byte order |
| Netlink.Bytes16IsNumber | internal/tun/tun_linux.go:355-363 | the two bytes of a 16-bit field, most significant first, are the digits of its number in base 256 |
| Netlink.ParseRtAttrs | internal/tun/rtnetlink_linux.go:171-190 | the reslicing loop computes that map and terminates |
| Netlink.NlaBuffer | internal/tun/tun_linux.go:355-363 | the padded buffer is that block |

## Left out

Assumptions of the model:

- Nodes are identified with their overlay addresses: the derivation of a ULA from a NodeID, many-to-one in general (internal/identity/identity.go:49-60), is taken to be injective on the nodes of a mesh.
- In Mesh an advertisement's snapshot and its write are one step on a FIFO stream. The program drops the table lock in between (internal/node/route.go:203-211), and overtaking there would break the monotonicity loop freedom rests on; AnyRun does without this assumption.
- Advertisements are those `sendRoutesTo` builds; Lifecycle drops that except where it says Honest.
- Mesh runs have session-ups only; losses and replacements are in Churn, where a teardown is one step after its session's `onSessionUp`, and what a replaced session had not read is lost. Lifecycle drops both of these, AnyRun the second.
- An epoch of Decay, Stabilize and Churn is a stretch in which what is in flight is read, every neighbour is heard once more, the holddown passes and every node expires; how long that takes is not modelled.
- Where an advertisement lists a default twice, loop freedom, exactness and termination are not claimed of the defaults; their lower bound is, in AnyRun. After losses only routes to nodes are followed.
- One handling of an echo is one step, its writes included; writes may fail but sessions do not change during a flood.
- In EchoFlood and EchoPath all nodes run the program; a waiter's number does not wrap at 64 bits, and origin and number form the key without a string encoding.
- Names are ASCII: Unicode trimming and case mapping are not modelled.

Weaker than the program:

- Router.Router.OnSessionDown: the release of the underlay pin is not modelled.
- Handler.HandleIPv6: the DNS reply to the resolver address is not modelled.
- Handler.HandleExitFromTUN: the resolution of the configured exit to an address is a parameter.
- Handler.Onwards: the transport's verdict on the write is a parameter.
- Echo.EchoNode.StartEcho: stops where the call waits; the timeout and the formatting of the result are not modelled.
- Trace.TraceRoute: what arrives at the tap before a probe's deadline is a parameter, so round-trip times, cancellation, the tap's capacity of eight and node names are not modelled.
- TraceExact.TraceIsExact: no packet is lost and no table changes during the trace, and the destination has neither TUN nor stack, since a host with one answers probes by itself.
- Framer.TcpSession.Recv: the connection is a list of read results, after which nothing more arrives in time; a deadline that cannot be set counts as a broken read.
- Handler.HandlePacket: the DNS reply to the resolver address, the choice between datagram and stream and the queues behind them are not modelled; the transport's verdict is a parameter.

Not modelled:

- QUIC, TLS, certificates, keys, listeners, dialling, the control socket, SOCKS, the HTTP banner and the userspace stack.
- System routes, address configuration, firewalls and D-Bus beyond netlink attributes.
- The exit's NAT and egress, exit host defaults and underlay pins.
- Configuration, the peers file, DNS answers, labels, logging and backoff.
