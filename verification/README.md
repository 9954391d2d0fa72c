# Rusnel in Dafny

Rusnel multiplexes TCP, UDP and SOCKS5 tunnels over one QUIC connection. This project models the
part of it that is logic rather than I/O, and proves what that logic is for. `dafny verify
dfyconfig.toml` checks everything.

| file | what it models |
|---|---|
| `Registry.dfy` | the server's registry of clients, tunnels and conns, on values: operations, the invariant of every run, conservation of byte counts, history |
| `ServerState.dfy` | the same registry as the object that the handlers share and update |
| `RegistryRuns.dfy` | the registry against its events: conns, tunnels, clients, departures and every field of the totals |
| `ConcurrentTotals.dfy`, `ReadRuns.dfy`, `ClientReads.dfy` | a tunnel's and a client's byte totals read while conns open, count and close, in atomic steps |
| `UdpMux.dfy`, `UdpRuns.dfy`, `UdpLoop.dfy` | the UDP multiplexer: a receive loop and one task per key, in atomic steps; the same against its runs; and one iteration of the loop as code |
| `SocksRelay.dfy` | the SOCKS5 UDP relay as that multiplexer, keyed by source and target |
| `Dispatch.dfy`, `Session.dfy`, `SessionRuns.dfy`, `SessionHandlers.dfy` | policy, openers and resolvers; the session protocol over all clients, also against its runs; the server's handlers |
| `SessionWire.dfy`, `Framing.dfy`, `ByteStream.dfy` | the session hello between clients and server, byte by byte; control frames and datagram frames; streams |
| `DuplexCopy.dfy` | the copy loop, and the two directions of a TCP tunnel with their abort signal |
| `SocksUdp.dfy`, `SocksHandshake.dfy`, `SocksWire.dfy` | both codecs of the SOCKS5 UDP header; both sides of the SOCKS5 handshake; every message of both, byte by byte |
| `Remote.dfy`, `RemoteParser.dfy` | tunnel declarations and their text form |
| `Reconnect.dfy`, `Interleave.dfy` | the reconnect loop; the order in which server addresses are tried |
| `Basics.dfy`, `Sums.dfy`, `Counters.dfy`, `IpText.dfy`, `TextWitness.dfy` | shared definitions, sums, byte counters, address text, and a UTF-8 codec and an address text that meet the laws on text |

How the program's ingredients appear:

- Concurrency is a step relation. A run is any sequence of enabled steps, and every theorem about
  runs is about all of them. Atomic operations are taken to be sequentially consistent.
- What a state records is also stated in terms of the steps alone: which bytes were counted, what
  arrived and was answered, what was closed, ended or dropped, and why (`RegistryRuns`, `ReadRuns`,
  `UdpRuns`, `SessionRuns`, and `CopiesTheRun` and `EndsTheRun` in `DuplexCopy`).
- In `ConcurrentTotals`, a reader visits a conn at most once, and visits every conn that is in the
  map during the whole scan; no byte is counted on a conn whose guard has begun to drop. These are
  the two facts about the map and about guards that the source relies on.
- Entries that the program shares by reference counting live in arenas indexed by id, because an
  entry outlives its place in the maps as long as someone holds it.
- A timeout, a network error and an end of input are steps that may happen at any time.
- Byte counters are naturals; `CountersDoNotWrap` and `ClientCountersDoNotWrap` say when the 64-bit
  ones cannot overflow.
- MessagePack, IPv6 text and UTF-8 are parameters with laws. IPv4 text and port numbers are
  concrete. The laws of UTF-8 are that text is encoded character by character, that decoding undoes
  it, and that a character cut short at the end is read as one U+FFFD. `TextWitness` has concrete
  conversions under which they all hold.
- The law of a hello's encoding is that declarations come back without the flow label and the scope
  of their local address, because the binary form of a socket address holds IP and port only
  (`src/common/utils.rs:14` with the derived serialization of `SocketAddr`). Every theorem about the
  wire is for all declarations under that law. `ExactAgreement` says when nothing is lost, and
  `ParsedAgreement` that nothing ever is for declarations from the command line.
- In `SessionWire` a client has its own state, and all it learns comes through the bytes of the
  reply. Either direction may break off after any byte.

Three places where the code and its documentation differ; the model follows the code.

- The comment at `src/main.rs:125-130` says that the first address keeps the resolver's preferred
  family. The code always puts IPv6 first when both families are present: `FirstFamilyIsKept`, and
  `FirstFamilyIsLost` for two addresses.
- `src/server/state.rs:10` and `README.md:368` say that tunnels are deduplicated per client by
  spec. The code gives every declaration its own tunnel, so a client's tunnels are deduplicated if
  and only if its hello was: `DeduplicatedExactly`, and `EqualDeclarationsAreKept` for a hello that
  says the same thing twice.
- `src/common/tunnel.rs:38-44` writes control messages of up to 2^32 - 1 bytes, but no peer reads
  one of more than 65536: `FrameRoundTrip`.

Four promises that hold only under a condition, which the model states exactly.

- A source does not always have a single live conn in the UDP multiplexer, because a task that has
  ended removes its key's entry later, whoever's entry that is by then: `TwoLiveConns`. It has a
  single one throughout a run if and only if no such removal takes the entry of a live conn that is
  still live when its key's next conn is made: `SingleExactly`. `HarmlessIsSingle` and
  `TrackedIffHarmless` treat runs in which no removal hits a live conn's entry at all.
- An error in one direction of a TCP tunnel does not always stop the other one at once, because a
  direction that has not been polled is not signalled, and the direction towards the local side
  signals only after it has waited for its sink to be ended. `ErrorStopsOther` takes every await as
  a point where the other direction may run, which is real for the flush of standard output at
  `src/common/tcp.rs:291-299`. `PromptErrorStopsOther` is for a sink whose end does not suspend, as
  is expected of a TCP socket: there an error in either direction stops the other one if and only
  if that has been polled.
- A datagram through the SOCKS5 relay does not always get replies that name the target it named. A
  domain name in the form of a non-canonical IPv6 address comes back as the canonical text, and one
  that is not valid UTF-8 may have a text of more than 255 bytes, which is cut. `RelayNamesTarget` has
  the exact condition: a text that is too long survives only if it ends in a U+FFFD that the cut goes
  through. `LooseV6InRun` and `LostNameInRun` are runs of the relay that fail in these two ways.
- A client's conn is not always on a tunnel of its own, because the server looks openers up by global
  id (`src/server/mod.rs:415`). It is if and only if the opener names an id that was assigned to that
  client: `OpensOwnTunnel`; `OpensOtherTunnel` is a run in which it is not.

## Model

| member | source | states |
|---|---|---|
| `Registry.ReachableInv` | src/server/state.rs:254-404 | In every reachable state: the global tunnel index is the disjoint union of the live clients' maps, every tunnel lists exactly its guarded conns, every global conn is guarded, rolling totals equal the bytes of closed conns, and the ring holds the last disconnects |
| `Registry.Conservation` | src/server/state.rs:140-156 | For every tunnel ever created, registered or not, cumulative plus active equals all bytes ever counted on its conns |
| `Registry.TotalsAreTransferred` | src/server/state.rs:140-156 | After any run the totals of a tunnel are the bytes that the run transferred on its conns, and its conn count is the number of conns the run opened on it |
| `Registry.ConnCount` | src/server/state.rs:366-404 | The lifetime conn count of a tunnel is its live conns plus its closed ones |
| `Registry.DisconnectRecordsAll` | src/server/state.rs:271-301 | A history entry holds everything counted on the client's conns and the number of all its conns at that moment |
| `Registry.HistoryIsFaithful` | src/server/state.rs:292-307 | Every history entry of a run was made by one disconnect of that run, from the state it happened in |
| `Registry.SnapshotIsNewestFirst` | src/server/state.rs:420-426 | A snapshot is the newest min(limit, 256, n) of n disconnects, newest first |
| `Registry.RegisteredInOrder` | src/server/state.rs:318-344 | Declarations get consecutive fresh ids in their order, one tunnel each even when equal, and nothing else becomes a tunnel |
| `Registry.DeduplicatedExactly` | src/server/state.rs:318-344 | The tunnels of a client that had none differ pairwise in what they declare if and only if the declarations of its batch do |
| `Registry.EqualDeclarationsAreKept` | src/server/state.rs:318-344 | Two equal declarations become two tunnels, which are not deduplicated |
| `Registry.DeregisterClears` | src/server/state.rs:271-290 | Deregistering takes exactly the client's tunnels and conns out of the global indices and changes no entry or counter |
| `Registry.NoLeak` | src/server/state.rs:398-404 | Once all guards are dropped no conn is left in any index |
| `Registry.LateConn` | src/server/state.rs:366-404 | A conn opened on a tunnel of a departed client is listed until its guard drops, and then no index remembers it |
| `Registry.RunExtends` | src/server/state.rs:326-327 | Over the rest of any run ids keep their meaning and are never reused, closed conns keep their final count, counts never go down, disconnects are only added |
| `Registry.CountersDoNotWrap` | src/server/state.rs:112-116 | While the bytes counted on a tunnel stay below 2^64, so do its active, cumulative and total counters |
| `Registry.ClientCountersDoNotWrap` | src/server/state.rs:81-93 | While the bytes counted on all of a client's conns stay below 2^64, so do every partial sum of the loop over its tunnels, the total and its history entry |
| `RegistryRuns.ConnsAreTheRun` | src/server/state.rs:366-404 | In every run the conns are those that were opened, in order, each on its tunnel, with exactly the bytes counted on it, and guarded exactly until its guard was dropped |
| `RegistryRuns.TunnelsAreTheRun` | src/server/state.rs:318-344 | In every run the tunnels are the declarations, in order, each with its client, direction and kind, whatever became of the client |
| `RegistryRuns.ClientsAreTheRun` | src/server/state.rs:254-308 | In every run the registered clients are those that came and have not gone |
| `RegistryRuns.EveryDepartureIsRecorded` | src/server/state.rs:292-307 | The number of history entries ever made is the number of departures of registered clients in the run |
| `RegistryRuns.TotalsByField` | src/server/state.rs:140-156 | Active is what is counted on the guarded conns of a tunnel, cumulative what was counted on its closed ones, and the conn counts are the numbers of guarded and of all conns |
| `RegistryRuns.ClientTotalsByField` | src/server/state.rs:81-93 | The same four fields for a client, over the conns of all its tunnels |
| `RegistryRuns.TotalsAreTheRun` | src/server/state.rs:140-156 | After every run: active is the sum of what was counted on the conns opened on the tunnel and not dropped, cumulative on those dropped, and the conn counts are the numbers of the former and of both |
| `RegistryRuns.ClientTotalsAreTheRun` | src/server/state.rs:81-93 | The same for a client, over the conns opened on the tunnels that it declared in the run |
| `ServerStates.ServerState.constructor` | src/server/state.rs:217-230 | A new registry is empty and valid |
| `ServerStates.ServerState.RegisterClient` | src/server/state.rs:254-269 | Registers a client id that was never registered before, with no tunnels |
| `ServerStates.ServerState.RegisterTunnels` | src/server/state.rs:318-344 | Registers the batch in order and returns its ids in order |
| `ServerStates.ServerState.Tunnel` | src/server/state.rs:346-348 | Finds a tunnel exactly when a registered client owns it |
| `ServerStates.ServerState.RegisterConn` | src/server/state.rs:366-385 | Adds a fresh guarded conn to its tunnel and to the global index |
| `ServerStates.ServerState.AddIn` | src/common/counted.rs:52-56 | Adds to a conn's incoming count and to nothing else |
| `ServerStates.ServerState.AddOut` | src/common/counted.rs:58-62 | Adds to a conn's outgoing count and to nothing else |
| `ServerStates.ServerState.CloseConn` | src/server/state.rs:398-404 | Folds a conn's count into its tunnel and removes it from both indices |
| `ServerStates.ServerState.TunnelTotals` | src/server/state.rs:140-156 | The loop over a tunnel's conns yields the sum of their counters, in any order of visits |
| `ServerStates.ServerState.ClientTotals` | src/server/state.rs:81-93 | The loop over a client's tunnels yields the sum of their totals, in any order of visits |
| `ServerStates.ServerState.DeregisterClient` | src/server/state.rs:271-308 | Removes a client with its tunnels and conns from the indices and appends its totals to the bounded history; an unknown id changes nothing |
| `ServerStates.ServerState.HistorySnapshot` | src/server/state.rs:420-426 | Returns the newest disconnects first, at most as many as asked for and as the ring holds |
| `ConcurrentTotals.ReachableInv` | src/server/state.rs:140-156 | What every interleaving of closes, counts and one read keeps: running sums are exact and what was seen or loaded was current when read |
| `ConcurrentTotals.TotalsBound` | src/server/state.rs:140-156 | A finished read reports per flow at least what the conns held when it began and at most what they held when it ended plus the bytes of conns whose close overlaps it |
| `ConcurrentTotals.QuietTotals` | src/server/state.rs:398-404 | With no close in progress the report lies between the two counts |
| `ConcurrentTotals.BytesCountedTwice` | src/server/state.rs:398-404 | The excess is real: for every n there is a run that reports 2n with n bytes counted |
| `ReadRuns.ConnsAreTheRun` | src/server/state.rs:398-404 | In every run the conns are those that were opened, each with the bytes that were counted on it in either flow, live until its close begins and in the map until that is over |
| `ReadRuns.CountedIsTransferred` | src/common/counted.rs:52-62 | In every run what the conns hold of a flow is the sum over the transfers of the run |
| `ReadRuns.ReadBound` | src/server/state.rs:140-156 | For a read that begins at one step of a run and loads its last total at another, the report lies per flow between what the run had transferred at the first and what it had transferred at the second plus the bytes of conns whose close overlaps the time between |
| `ReadRuns.QuietRead` | src/server/state.rs:140-156 | If every close begun by the end of the read was over before it, the report lies between the two transferred amounts |
| `ReadRuns.TransferredOnceReportedTwice` | src/server/state.rs:398-404 | For every n there is a run that transfers n bytes and whose read reports 2n |
| `ClientReads.ClientTotalsBound` | src/server/state.rs:81-93 | However the steps of a client's tunnels interleave with the loop that reads them one after another, the sum lies per flow between what the run had transferred on all of them when it began and what it had transferred when it ended plus the bytes of conns whose close overlaps it |
| `UdpMux.ReachableInv` | src/common/udp.rs:176-268 | In every interleaving each task holds increasing arrivals of its own key, no arrival is with two tasks, map entries lead to tasks of their key, queues hold at most 4096 |
| `UdpMux.Isolation` | src/common/udp.rs:176-329 | What a conn sent or holds is a subsequence of what its source sent, no datagram is with two conns, and replies on a conn go to its source in stream order |
| `UdpMux.NothingDisappears` | src/common/udp.rs:211-216 | Every datagram the loop is done with is with a conn or was dropped, and never both |
| `UdpRuns.RecordsTheRun` | src/common/udp.rs:176-329 | In every run the log is what arrived, and a conn's replies are what it was answered with |
| `UdpRuns.RepliesTheRun` | src/common/udp.rs:309-329 | In every run what goes out over a conn is, in order, what the conn was answered with, all of it to the conn's key, under which a datagram had arrived |
| `UdpRuns.ClosedIsEnded` | src/common/udp.rs:226-268 | A conn's queue is closed exactly when its task has ended |
| `UdpRuns.DroppedForCause` | src/common/udp.rs:211-216 | In every run a datagram is dropped if and only if, at some step, its conn's task had ended or had 4096 datagrams queued when the loop tried to queue it, or the task ended while it waited |
| `UdpRuns.KeptUnlessCause` | src/common/udp.rs:211-216 | Every datagram the loop is done with is with a conn if and only if there was no such step |
| `UdpRuns.EverythingGetsThrough` | src/common/udp.rs:176-329 | For every key and every list of datagrams there is a run in which the key's conn writes exactly that list to its stream and nothing is dropped |
| `UdpMux.EndToEnd` | src/common/udp.rs:291-329 | However the stream is chunked or cut, and whatever part of a last frame its task left on it, the far end emits a prefix of what was sent, a subsequence of what the source sent, and all of what was sent once that has arrived |
| `UdpMux.SingleExactly` | src/common/udp.rs:176-268 | Throughout a run no key has two live conns, if and only if no conn is ever made for a key that has a live one, if and only if no late removal takes the entry of a conn that is still live when its key's next conn is made |
| `UdpMux.HarmlessIsSingle` | src/common/udp.rs:265-266 | Late removals are the only cause: if none hits the entry of a live conn, no key ever has two live conns |
| `UdpMux.TrackedIffHarmless` | src/common/udp.rs:265-266 | The map leads to every live conn throughout a run if and only if no late removal hit the entry of a live conn |
| `UdpMux.TwoLiveConns` | src/common/udp.rs:186-209 | Such a removal happens: for every source a run leaves it with two live conns |
| `UdpLoop.HandledIsRun` | src/common/udp.rs:184-216 | The loop's steps without interruption queue the datagram on the key's open conn, or on a new one if the entry is missing or closed, or drop it if the queue is full |
| `UdpLoop.Multiplexer.OnDatagram` | src/common/udp.rs:181-216 | One iteration leaves the datagram last in the queue of its key's open conn, or of a new one if there is none, unless 4096 are queued there, when it drops it; nothing else changes, and that is the effect of the loop's steps |
| `UdpLoop.Multiplexer.UnmapTask` | src/common/udp.rs:265-266 | The end of a task removes the entry of its key unconditionally |
| `SocksRelay.ReceivedIsAddressed` | src/common/socks.rs:362-371 | Per source and target the relay's multiplexer receives exactly the payloads whose header names that target, and skips malformed datagrams |
| `SocksRelay.RelayIsolation` | src/common/socks.rs:358-405 | A conn carries a subsequence of what its source sent to its target, and every reply goes to that source in a datagram that parses to the target's port, its host in the form in which a wrapped header gives it back, and the exact payload |
| `SocksRelay.RelayNamesTarget` | src/common/socks.rs:358-405 | In every run a reply names the very target that the source asked for, if and only if that is neither non-canonical IPv6 text nor a name of more than 255 bytes, a text of 256 or 257 bytes that ends in U+FFFD excepted; a valid UTF-8 name is never too long |
| `SocksRelay.MisnamedInRun` | src/common/socks.rs:358-405 | For every datagram whose target is of either kind there is a run in which its source gets a reply that names another target |
| `TextWitness.LostNameInRun` | src/common/socks.rs:539-606 | A domain of 255 bytes 0xFF is such a target: a run through the relay answers it under another name |
| `TextWitness.LooseV6InRun` | src/common/socks.rs:539-606 | For every address, its text with a superfluous zero is such a target, where the address parser accepts that: a run answers it under another text |
| `Dispatch.ValidateRemotes` | src/server/mod.rs:350-364 | Accepts a batch if and only if reverse is allowed or nothing in it is reverse, and SOCKS is allowed or nothing in it is SOCKS; else reports the first offending declaration, as reverse before SOCKS |
| `Dispatch.ServerResolves` | src/server/mod.rs:496-548 | The server takes exactly forward openers that carry a target if and only if the tunnel is SOCKS, sends them to the carried or declared target over the right protocol, and refuses the others with the right error |
| `Dispatch.ClientResolves` | src/client/mod.rs:572-621 | The same for reverse openers at the client |
| `Dispatch.ForwardOpenAccepted` | src/client/mod.rs:459-483 | The server accepts every opener of the client's handlers except that of a stdio SOCKS declaration, which it always refuses |
| `Dispatch.BuildIdMap` | src/client/mod.rs:352-358 | The client's loop over ids and declarations builds the map in which the last pair for an id wins |
| `Dispatch.IdMapAgrees` | src/client/mod.rs:352-358 | With distinct ids the map leads each to the declaration at its position and knows no other |
| `Session.ReachableInv` | src/server/mod.rs:176-319 | In every run over all clients: registered clients are those not closed, each owns exactly the tunnels of its hello, every tunnel obeys the policy, listeners are exactly the reverse declarations of established sessions, tasks that serve an accepted connection serve a reverse tunnel, and accepted openers were resolved correctly |
| `Session.PolicySafety` | src/server/mod.rs:198-243 | Without allow-socks no SOCKS tunnel exists and no conn ever goes to a carried target; without allow-reverse the server never listens for anyone |
| `Session.RejectedLeavesNothing` | src/server/mod.rs:206-216 | A hello that is lost or refused, or whose reply fails, leaves no client, tunnel or listener behind, then and ever after |
| `Session.NoTunnelBeforeAcceptance` | src/server/mod.rs:335-341 | A client whose hello was not accepted has no tunnel |
| `Session.LateReverseConn` | src/common/tcp.rs:337-372 | In every run a task that serves a connection to a reverse listener can open its conn even when the session is over; the conn is on a reverse tunnel and listed, and a closed client still has no tunnel or listener |
| `Session.OpensOwnTunnel` | src/server/mod.rs:408-441 | In every run an accepted opener of an established client is for one of that client's own tunnels if and only if it names an id that was assigned to the client |
| `Session.OpensOtherTunnel` | src/server/mod.rs:408-441 | For every allowed forward declaration there is a run in which a client without tunnels opens a conn on the tunnel that another client declared |
| `Session.SessionAgreement` | src/server/mod.rs:325-345 | At the server: while a session is established its registry holds, position by position, the declarations of the hello it read under the ids it assigned, and no other tunnel of the client |
| `Session.ForwardConnsAccepted` | src/server/mod.rs:408-438 | While a session is established every opener of its forward handlers is accepted and goes to the right place, stdio SOCKS excepted |
| `Session.ReverseConnsAccepted` | src/server/mod.rs:366-400 | At the server: every opener of a reverse listener resolves to the right place under the declarations and ids that the server recorded for that session |
| `SessionRuns.RegistryRuns` | src/server/mod.rs:176-319 | The registry part of every session run is a run of the registry, which ends in the same registry |
| `SessionRuns.ConnsAreTheRun` | src/server/mod.rs:438-441 | In every session run there is one conn for each opener that was started and each reverse conn, with exactly the bytes counted on it, guarded until its guard is dropped |
| `SessionRuns.OpenersAreTheRun` | src/server/mod.rs:290-301 | In every run each accepted opener is pending or was started, never both and never twice |
| `SessionRuns.ShutdownIsFinal` | src/server/mod.rs:303-316 | Once a session is shut down the server never again listens for that client or takes an opener of it |
| `SessionWire.ExchangeHello` | src/common/tunnel.rs:71-93 | The client's exchange writes the framed hello, or the part that fits, and ends in the id map of the reply, or fails if a write, the end of the stream, the frame, the verdict or the number of ids says so |
| `SessionWire.ServerRuns` | src/server/mod.rs:176-319 | Every run of clients and server over bytes is a run of the server model, which ends in the same server state |
| `SessionWire.ReachableInv` | src/common/tunnel.rs:71-112 | What every run of all clients and the server over bytes keeps: each client's state, the bytes in both directions and the server's phase for it fit together |
| `SessionWire.HelloHeardAsSaid` | src/common/utils.rs:6-15 | A hello within the cap is heard as it was said if and only if no local address in it has a flow label or scope |
| `SessionWire.WireAgreement` | src/client/mod.rs:350-358 | Whenever a client has its map, that agrees position by position with the tunnels that the server assigned, up to flow label and scope of the local address, and the server holds the same session or has closed that client |
| `SessionWire.ExactAgreement` | src/client/mod.rs:350-358 | The server's tunnels are the client's very declarations, position by position, if and only if none of these has a local address with a flow label or scope |
| `SessionWire.OnlyReadableHellosMap` | src/common/tunnel.rs:46-62 | A client gets a map only if it declared nothing reverse or SOCKS that is not allowed and both hello and reply are within the 65536 byte cap |
| `SessionWire.ExchangeOutcome` | src/server/mod.rs:325-345 | After every run, a hello that was sent and not yet read can be exchanged without loss, and ends in the map of the fresh ids if and only if it is within the cap, holds nothing reverse or SOCKS that is not allowed, and the reply is within the cap; otherwise the client fails |
| `SessionWire.ForwardOpenersAccepted` | src/client/mod.rs:459-483 | While both hold the session the server reads every opener of the client's handlers as it was meant and accepts it for the right place, stdio SOCKS excepted |
| `SessionWire.ReverseOpenersAccepted` | src/client/mod.rs:489-557 | While the server listens for a reverse declaration, the client reads every opener of that listener as it was meant, finds it in its own map, and sends it to the right place |
| `SessionHandlers.PerformSessionHello` | src/server/mod.rs:325-345 | Registers the whole batch or nothing, and replies with the ids in order |
| `SessionHandlers.AcceptHello` | src/server/mod.rs:198-216 | An accepted hello's ids mean its declarations; otherwise the client and its tunnels are gone |
| `SessionHandlers.HandleOpenConn` | src/server/mod.rs:408-441 | Registers a conn exactly when the opener names a registered tunnel, resolves and is answered |
| `SessionHandlers.ParsedConnsAccepted` | src/client/mod.rs:459-483 | For declarations from the command line every forward opener is accepted, without exception |
| `SessionHandlers.ParsedAgreement` | src/client/mod.rs:350-358 | Whenever a client whose declarations come from the command line has its map, the server's tunnels are these very declarations |
| `DuplexCopy.CountedReader.PollRead` | src/common/counted.rs:86-101 | Counts exactly the bytes of each successful read |
| `DuplexCopy.CopyBuf` | src/common/tcp.rs:124-127 | Delivers everything in order unless the sink fails first; the count is what was delivered plus at most 262144 |
| `DuplexCopy.CopySafety` | src/common/tcp.rs:100-205 | In every run sinks receive prefixes of what was read, counters are within a buffer of that, the QUIC send half ends at most once, by FIN only after everything is delivered, by RESET exactly after an error or abort |
| `DuplexCopy.CopiesTheRun` | src/common/tcp.rs:100-205 | In every run a direction has read and counted all that its source gave, and written as much of it, from the start, as its sink took |
| `DuplexCopy.EndsTheRun` | src/common/tcp.rs:130-153 | The QUIC send half is finished if and only if the run ended it after a graceful end, and reset if and only if the direction towards it failed or was aborted |
| `DuplexCopy.GracefulRunEndsByFin` | src/common/tcp.rs:130-137 | Without an error, and if the stream could be ended, a direction towards QUIC that is done delivered all that its source gave and ended the stream by FIN, once |
| `DuplexCopy.ErrorFreeNeverAborts` | src/common/tcp.rs:186-189 | Without an error no direction is aborted and no stream is reset; a direction that is done delivered everything |
| `DuplexCopy.NotifiedWritesNothing` | src/common/tcp.rs:121-124 | A direction that was signalled neither reads nor writes any more |
| `DuplexCopy.SignalAborts` | src/common/tcp.rs:121-142 | In every continuation after the signal the other direction can end in no way but aborted, if and only if it was copying when the signal was sent |
| `DuplexCopy.ErrorStopsOther` | src/common/tcp.rs:138-177 | With every await taken as a suspension point: after an error the other direction writes nothing more, in any continuation, if and only if its copy has ended or it was polled and the error is in the direction towards QUIC |
| `DuplexCopy.PromptErrorStopsOther` | src/common/tcp.rs:138-177 | If ending the local sink does not suspend: after an error in either direction the other one writes nothing more, in any continuation, if and only if it had been polled |
| `Framing.WriteDatagram` | src/common/udp.rs:43-49 | Writes length and payload, or refuses a payload over 65535 bytes before writing anything |
| `Framing.ReadDatagram` | src/common/udp.rs:53-69 | Consumes exactly the first whole frame; the buffer is never too small at 65535 bytes |
| `Framing.PumpStreamToSocket` | src/common/udp.rs:132-146 | Re-emits every whole frame of the stream in order |
| `Framing.PumpSocketToStream` | src/common/udp.rs:109-130 | Frames exactly the payloads from the expected peer, in order, until a write fails |
| `Framing.FramingIsTransparent` | src/common/udp.rs:40-69 | Any list of payloads survives any chunking; a stream that is cut yields exactly its whole frames |
| `Framing.TornFrame` | src/common/udp.rs:43-69 | A frame that is cut short behind whole ones is never emitted and takes nothing from them |
| `Framing.WriteFramed` | src/common/tunnel.rs:38-44 | Writes one length-prefixed message, or the part of it that fitted |
| `Framing.ReadFramed` | src/common/tunnel.rs:46-62 | Consumes exactly one frame, and refuses with the right error |
| `Framing.FrameRoundTrip` | src/common/tunnel.rs:38-62 | A control frame comes through with the bytes behind it intact if and only if its body has at most 65536 bytes |
| `Framing.FrameTruncated` | src/common/tunnel.rs:46-62 | A frame that is cut short is an error, never another message |
| `Framing.LengthsInFront` | src/common/tunnel.rs:38-44 | A control message stands behind its length in four bytes and a datagram behind its length in two, low byte first |
| `Framing.OpenerThenDatagrams` | src/common/udp.rs:278-307 | An opener and the datagrams behind it share a stream without disturbing each other |
| `SocksUdp.ReplyParses` | src/common/socks.rs:539-606 | A wrapped reply always parses, with the exact port and payload, even when the name is cut |
| `SocksUdp.ReplyHost` | src/common/socks.rs:586-606 | The host survives for IPv4 text, for IPv6 text exactly if canonical, and for names of up to 255 bytes; longer ASCII names are cut |
| `SocksUdp.RewrapRestores` | src/common/socks.rs:539-606 | Re-wrapping a parsed datagram restores its bytes if and only if RSV is zero and a domain is no IP literal and either valid UTF-8 or 255 bytes that are valid up to the first one or two bytes of U+FFFD |
| `SocksUdp.CutName` | src/common/socks.rs:586-606 | A text of more than 255 bytes is read back from its first 255 if and only if it has 256 or 257 and ends in U+FFFD |
| `SocksUdp.DomainKeptExactly` | src/common/socks.rs:539-606 | A domain survives the conversion to text and back if and only if it is valid UTF-8, or 255 bytes that are valid up to the first one or two bytes of U+FFFD |
| `TextWitness.InvalidDomainIsKept` | src/common/socks.rs:539-606 | The exception is real: 254 ASCII characters and the byte 0xEF are not valid UTF-8 and survive |
| `SocksUdp.ReplyNamesTarget` | src/common/socks.rs:539-606 | A reply parses to the very target it is for, if and only if that is neither non-canonical IPv6 text nor a name of more than 255 bytes, a text of 256 or 257 bytes that ends in U+FFFD excepted |
| `SocksUdp.ValidNameIsNotLost` | src/common/socks.rs:539-606 | The target parsed from a datagram is too long a name only if the datagram has a domain that is not valid UTF-8 |
| `SocksUdp.Scratch.WrapInto` | src/common/socks.rs:586-606 | The reused scratch buffer ends up with exactly the wrapped reply |
| `SocksUdp.UnwrapInPlace` | src/common/proxy.rs:341-385 | Shifts the payload to the front and returns address and length exactly when the header is well-formed, else leaves the buffer alone |
| `SocksUdp.UnwrapRefinesParse` | src/common/proxy.rs:341-385 | On RSV-zero datagrams with an IP address both parsers accept the same inputs with the same address, port and payload |
| `SocksUdp.UnwrapIsStricter` | src/common/proxy.rs:341-385 | The in-place parser accepts exactly what the other one accepts with RSV zero and no domain name |
| `SocksUdp.EncodersAgree` | src/common/proxy.rs:312-333 | Both encoders are byte-identical on IP targets |
| `SocksUdp.UnwrapOfWrap` | src/common/proxy.rs:312-385 | Unwrapping a wrapped datagram gives the exact payload, IP and port, and the whole address if and only if it has no flow label and scope |
| `SocksUdp.ProxiedSocket.TrySend` | src/common/proxy.rs:448-468 | Sends the wrapped datagram to the relay, passes on that the socket did not take it, and refuses any destination but the target before asking the socket |
| `SocksUdp.ProxiedSocket.PollRecv` | src/common/proxy.rs:470-520 | Returns the next payload that came through the relay from the target and skips everything else |
| `SocksUdp.AnswersAreHeard` | src/common/proxy.rs:470-520 | All answers of the target are delivered in order if and only if its address has no flow label and scope |
| `SocksWire.ParsesExactly` | src/common/socks.rs:539-581 | The relay takes a datagram if and only if it is unfragmented and has an address of one of the three types and a port, and reads exactly these and the payload |
| `SocksWire.ReplyOnTheWire` | src/common/socks.rs:586-606 | The bytes of a wrapped reply, field by field |
| `SocksWire.DatagramOnTheWire` | src/common/proxy.rs:312-333 | The bytes of a wrapped datagram, field by field |
| `SocksWire.AcceptedExactly` | src/common/proxy.rs:470-520 | A packet counts as the server's if and only if the relay sent it and it is the datagram that names the server's address, which has no flow label and scope |
| `SocksWire.DeliveredExactly` | src/common/proxy.rs:470-520 | From any packets, a payload is delivered if and only if the relay passed it on for the server |
| `SocksHandshake.ServerDecodes` | src/common/socks.rs:183-255 | For every method list and well-formed request the machine decides on the address and port of the request and leaves the bytes behind unread |
| `SocksWire.HostIsExact` | src/common/socks.rs:216-239 | The host dialled is the text of the address on the wire: it parses to the same octets, and for IPv4 is the four of them in order |
| `SocksWire.SameTarget` | src/common/socks.rs:216-255 | A request and a UDP datagram with the same address and port name the same target |
| `SocksWire.ConnectOnTheWire` | src/common/socks.rs:183-255 | Byte by byte: a CONNECT request is accepted for the very address and port in it, with nothing written but 5, 0 |
| `SocksWire.OtherOnTheWire` | src/common/socks.rs:183-212 | Byte by byte: UDP ASSOCIATE is answered with the address of the relay socket, any other command with reply 7 |
| `SocksWire.BadVersionOnTheWire` | src/common/socks.rs:183-212 | A greeting of another version is refused without a word |
| `SocksWire.BadAtypOnTheWire` | src/common/socks.rs:216-255 | An unknown address type is refused with reply 8 |
| `SocksHandshake.NameIsExact` | src/common/socks.rs:227-239 | A UTF-8 name is dialled exactly |
| `SocksHandshake.ReadName` | src/common/socks.rs:227-239 | Consumes a name behind its length byte, or fails exactly if it did not arrive |
| `SocksHandshake.ReadTarget` | src/common/socks.rs:216-255 | Consumes address and port exactly, or says what was missing or wrong |
| `SocksHandshake.Handshake` | src/common/socks.rs:183-212 | Returns the verdict on exactly what arrived, with everything behind the request unread and exactly the replies due written, or a write error with the part that fitted if the connection takes fewer bytes; that verdict is the one of the machine, whose target `HostIsExact` and `ConnectOnTheWire` pin down |
| `SocksHandshake.HandlerMatchesMachine` | src/common/socks.rs:183-255 | Whatever arrives, complete or not, that verdict is the one on the state machine's last state |
| `SocksHandshake.HandshakeComposes` | src/common/proxy.rs:163-253 | Every run of proxy client against server ends with the relay at the server's bound address, or at its port on the proxy's IP if that is unspecified, and no byte left over |
| `SocksWire.PlainProxy` | src/common/proxy.rs:163-253 | Against a proxy that wants no authentication and answers with an IP or a name, the client writes exactly its offer and the request, and uses the address of the reply, or the IP of the proxy for a name or an unspecified address |
| `SocksWire.PasswordProxy` | src/common/proxy.rs:264-293 | Against a proxy that wants a password, the client sends user and password, each behind its length, and goes on if and only if the status is zero |
| `SocksWire.NoLogin` | src/common/proxy.rs:180-192 | It gives up on any other method, and on this one without credentials or with ones over 255 bytes, before it sends anything of them |
| `SocksWire.ReplyRefused` | src/common/proxy.rs:204-216 | A reply of another version or with a code other than zero ends the attempt with that error |
| `RemoteParser.SplitAddrTokens` | src/common/remote.rs:366-405 | The loop computes the tokens, or the first error |
| `RemoteParser.SplitIffJoin` | src/common/remote.rs:366-405 | The tokenizer returns a list if and only if it consists of tokens, ends in a non-empty one, and joins to the input |
| `RemoteParser.FourPartRoundTrip` | src/common/remote.rs:512-522 | Parsing the four-part form returns exactly that request |
| `RemoteParser.SocksRoundTrip` | src/common/remote.rs:494-510 | Parsing the three-part SOCKS form returns exactly that listener |
| `RemoteParser.StdioRoundTrip` | src/common/remote.rs:528-562 | Parsing the stdio form returns exactly that request |
| `RemoteParser.ParsedIsCanonical` | src/common/remote.rs:302-332 | Every parsed request is well-formed; a stdio request is forward and not SOCKS |
| `RemoteParser.ParseOfPrint` | src/common/remote.rs:302-332 | The long form of a well-formed request parses to that request |
| `RemoteParser.LongFormMeansTheSame` | README.md:124-130 | Whatever was typed, its long form means the same |
| `RemoteParser.ShorthandMeaning` | src/common/remote.rs:445-522 | Every shorthand means what its form with the documented defaults means, errors included |
| `RemoteParser.StdioShorthand` | src/common/remote.rs:528-562 | `stdio:<port>` means what `stdio:127.0.0.1:<port>` means, errors included |
| `IpText.V4TextIsCanonical` | src/common/remote.rs:415-419 | The IPv4 text that local hosts are parsed from is in bijection with addresses |
| `Reconnect.RunWithReconnect` | src/client/mod.rs:129-219 | For every sequence of outcomes the loop sleeps as documented and ends exactly when a shutdown, an interrupted sleep or the limit ends it |
| `Reconnect.GivesUpExactly` | src/client/mod.rs:129-219 | With a limit of m below the largest u32 it gives up exactly at m + 1 failures in a row, a lost session being the first of a new streak |
| `Reconnect.NeverGivesUp` | src/client/mod.rs:129-219 | Without a limit, or with the largest one, it never gives up |
| `Reconnect.SleepsReachTheCap` | src/client/mod.rs:312-314 | The n-th sleep of a streak, from the second on, is the initial backoff times 2^(n-1), capped; sleeps never shrink and reach the cap |
| `Interleave.InterleaveAddressFamilies` | src/main.rs:131-164 | The two loops compute the interleaving |
| `Interleave.KeepsAddressesAndOrder` | src/main.rs:131-164 | It is a permutation that keeps each family's order |
| `Interleave.Alternates` | src/main.rs:131-164 | The families alternate strictly, IPv6 first, until one runs out |
| `Interleave.SingleFamilyIsUnchanged` | src/main.rs:131-164 | One family alone is left as it is |
| `Interleave.FirstFamilyIsKept` | src/main.rs:125-164 | The first address keeps its family if and only if it was IPv6 or all addresses are IPv4 |
| `Interleave.FirstFamilyIsLost` | src/main.rs:125-164 | An IPv4 address in front of an IPv6 one is moved behind it |

## Left out

- QUIC, TLS, certificates, fingerprints and their files: foreign libraries and file I/O.
- The admin HTTP routes and the `ctl` tables: plumbing over the registry that is modelled here.
- Command line, configuration files and proxy URLs beyond remote specs: field-by-field precedence.
- Liveness of teardown, scheduling and the lengths of timeouts: a timeout is a step that may happen.
- The data plane of `stdio` combined with `/udp`: the two sides do not use the same framing there.
- Buffer pools, logging, benchmarks and scripts: no property beyond performance.
- Weak memory: relaxed atomics are modelled as sequentially consistent.
- Registry operations are atomic in `Registry`; only closing a conn and reading the totals of a tunnel or a client are also split into steps.
- The fields of registry entries that only describe (addresses, times, labels, spec text), and the text of a rejection.
- `HandshakeComposes` does not go through password authentication, for which the server here never asks; `PasswordProxy` is about a proxy that does.
- HandlerMatchesMachine: is about connections that take the two bytes of the first reply, because the state machine has no failing writes; `Handshake` itself covers those.
- The proxy client's handshake is a state machine only; its code is not modelled a second time as a method.
- What becomes of a QUIC send half that is dropped after its end could not be written (finished or reset): a matter of the QUIC library.
- Strings are sequences of characters; MessagePack, IPv6 text and UTF-8 are parameters with laws.
