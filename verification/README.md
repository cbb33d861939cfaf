# OpenSSH 9.6p1: channels, authentication and ciphers

A Dafny model of the parts of the bundled OpenSSH 9.6p1 that carry state or do arithmetic,
with proofs of what they promise.  `dafny verify dfyconfig.toml` checks the project.

- **Channels** (`ChannelIo`, `FlowControl`, `Endings`). One end of a plain stream channel as `channels.c`
  and `nchan.c` update it, and two such ends joined by two message queues. A run is any
  sequence of steps of either end: reads and writes of any length, write failures, window
  reviews, polls, deliveries, garbage collection. The results hold in every state that such a
  run reaches from two freshly opened ends (section 5.2 of RFC 4254).
- **Multiplexing** (`MuxProxy`, `MuxTraffic`). The growing channel table and the proxy that rewrites channel
  ids between several mux clients and one server.
- **Authentication** (`MethodLists`, `UserAuth`). The comma-separated lists of required methods
  as strings, what they denote, and the whole run of requests that strips them.
- **Key options** (`KeyOptions`, `KeyOptionsCodec`). Merging, activating and serialising the
  options of keys and certificates.
- **Ciphers** (`Keystream`, `Cbc`, `Ctr`, `ChaCha`, `ChaChaVectors`, `ChachaPoly`). The modes over any block
  cipher, the concrete ChaCha block function, and sealed packets over any Poly1305.
- **Bit sets, addresses, moduli, transfers** (`Bitmap`, `Addr`, `DhGroups`, `AtomicIo`).
- **Foundations** (`Bits`, `Wire`, `Wrappers`). Words are natural numbers with a bound; every
  bitwise operation is defined and proved one binary digit at a time.

Where C code changes a structure or a buffer in place the model is a class or a method on
arrays, proved against a function of the old state; the results over whole runs are lemmas
about those functions. Buffers that C may pass as both source and destination may be the same
array here.

## Where a promise does not hold

For each there is a lemma with a concrete input and one with the exact condition.

- Output discarded by a failed write is never credited, so a peer can be left without a window
  on a channel that is still open, whatever its window and packet size (`StallExists`,
  `NoStall`, `StallForever`).
- A window of a single byte is never credited back, so no second byte gets through
  (`TwoBytesJam`, `NeverJamsIff`).
- A mux client that was marked dead before `channel_free` is not detached from its proxies
  (`StaleRunExists`, `FreeClearsIff`), and packets for them go astray from then on
  (`ClientGoneIff` and `RoutesToOwner` say exactly when).
- "Earliest expiry wins" fails when the primary options have no expiry, and with it the
  associativity of the merge (`ExpiryCanVanish`, `EarliestWinsIff`; `GroupingMatters`,
  `MergeAssociates`). A session that starts without an expiry never gets one (`SessionExpiry`).
- `choose_dh` keeps a larger size that precedes the wanted one (`LargerSizeKept`, `SmallestIff`).
- `atomiciov6` moves nothing when the first entry of the vector is empty (`EmptyFirstEntry`; the
  condition is part of the contract of `AtomicIoV`).
- Bit 2^24 of a bitmap can be set and exported but not imported (`LargestBitNotImportable`,
  `ReimportableIff`).

Serialising keeps only one byte of a flag and no tunnel device below -1 (`RoundTripIff`). The
program sets neither, so this is a limit of the format and not a failure.

## Model

| member | source | states |
|---|---|---|
| `FlowControl.WindowsAgree` | 5g/group_key_mgmt/openssh-9.6p1/channels.c:2964-2979 | In every state that two honest ends can reach, the window a receiver still allows is what the sender may still send plus the data and the credit in flight; buffered input never exceeds the send window |
| `FlowControl.NeverAlarmed` | 5g/group_key_mgmt/openssh-9.6p1/channels.c:3389-3431 | In every reachable state no branch that complains about the peer was taken: no oversized packet, no exceeded window, no adjust overflow, no unknown channel |
| `FlowControl.StreamIntegrity` | 5g/group_key_mgmt/openssh-9.6p1/channels.c:2203-2238 | Over every run and in both directions the bytes written at one end are a prefix of those read at the other; until a write fails, bytes read = written ++ buffered there ++ in flight ++ buffered here |
| `FlowControl.CleanCloseDeliversAll` | 5g/group_key_mgmt/openssh-9.6p1/nchan.c:150-169 | In both directions an output side that closed without a failed write has written everything the peer read, and the peer reads no more |
| `FlowControl.NoStall` | 5g/group_key_mgmt/openssh-9.6p1/channels.c:2319-2345 | In both directions, with nothing in flight, output drained and the window reviewed, the sender may send at least half the window and all but three packets of it unless a write failed; it may send nothing if and only if failed writes discarded a whole window, or the window is one byte and that byte is consumed |
| `FlowControl.EverythingArrives` | 5g/group_key_mgmt/openssh-9.6p1/channels.c:2912-2980 | From every reachable state in which no write of the receiver has failed, whatever is in flight or closing, some continuation writes out all that the sender has read |
| `FlowControl.NeverJams` | 5g/group_key_mgmt/openssh-9.6p1/channels.c:2319-2345 | From every reachable state with an open input side, no failed write, a packet size above zero and a window of at least two bytes, any further bytes, however many windows long, can still be read, sent and written out |
| `FlowControl.NeverJamsIff` | 5g/group_key_mgmt/openssh-9.6p1/channels.c:2319-2345 | Two freshly opened ends can carry every stream if and only if the window is at least two bytes and the packet size above zero |
| `FlowControl.TwoBytesJam` | 5g/group_key_mgmt/openssh-9.6p1/channels.c:2319-2345 | With a smaller window, or packets that hold no data, no run ever writes out two bytes |
| `Endings.EofArrives` | 5g/group_key_mgmt/openssh-9.6p1/channels.c:2102-2134 | End of file or an error at one descriptor ends the stream: in no continuation of any reachable state does that end read another byte, and in some continuation the peer has received EOF, written everything and closed its output side |
| `Endings.EowStops` | 5g/group_key_mgmt/openssh-9.6p1/nchan.c:307-324 | A failed write announced by EOW stops the peer: some continuation reaches a state from which it never reads another byte |
| `Endings.DrainSaysEof` | 5g/group_key_mgmt/openssh-9.6p1/nchan.c:112-148 | In every run an input side that was draining closes only after it has sent EOF, even when the CLOSE of the peer comes first |
| `Endings.HalfEnds` | 5g/group_key_mgmt/openssh-9.6p1/nchan.c:150-169 | Once an end reads no more, some run closes its input side and the output side of the peer, whatever writes have failed |
| `Endings.ChannelDies` | 5g/group_key_mgmt/openssh-9.6p1/nchan.c:340-371 | When both descriptors have ended, some continuation exchanges CLOSE and frees both ends, and unless a write failed everything read at either end was written at the other |
| `Endings.RunLater` | 5g/group_key_mgmt/openssh-9.6p1/nchan.c:112-371 | No run reopens a side, takes back a CLOSE or reads through an ended input side |
| `FlowControl.ReviewSettles` | 5g/group_key_mgmt/openssh-9.6p1/channels.c:2319-2345 | A second window review straight after a first one owes no further credit |
| `FlowControl.StallForever` | 5g/group_key_mgmt/openssh-9.6p1/channels.c:2203-2241 | Once a whole window of output was discarded by a failed write, the send window of the peer is zero in every continuation |
| `FlowControl.StallExists` | 5g/group_key_mgmt/openssh-9.6p1/nchan.c:307-324 | For every window up to the buffer limit and every packet size a run discards the whole window by one failed write while the channel is open for input |
| `FlowControl.StepKeeps` | 5g/group_key_mgmt/openssh-9.6p1/channels.c:2067-2345 | Every step of either end keeps the invariant of the pair: accounting, byte order, and the order of EOF, CLOSE and data |
| `FlowControl.Reachable` | 5g/group_key_mgmt/openssh-9.6p1/channels.c:2067-3058 | The invariant holds after every run of steps |
| `FlowControl.ReachedSwap` | 5g/group_key_mgmt/openssh-9.6p1/channels.c:449-506 | The two ends are alike: a reachable state with the ends exchanged is reachable |
| `FlowControl.EveryTurn` | 5g/group_key_mgmt/openssh-9.6p1/channels.c:3366-3648 | Whatever one end does, windows, credit and bytes are moved but neither created nor lost |
| `FlowControl.EveryTurnEnds` | 5g/group_key_mgmt/openssh-9.6p1/nchan.c:112-371 | Whatever one end does, the EOF and CLOSE flags of both ends and the messages between them stay consistent; nothing follows a CLOSE and no data follows an EOF |
| `FlowControl.ReadEffect` | 5g/group_key_mgmt/openssh-9.6p1/channels.c:2067-2113 | A read adds at most what the send window leaves room for, and nothing else but the input state changes |
| `FlowControl.WriteEffect` | 5g/group_key_mgmt/openssh-9.6p1/channels.c:2152-2241 | A successful write moves exactly the written bytes from the output buffer to the consumed count |
| `FlowControl.PollEffect` | 5g/group_key_mgmt/openssh-9.6p1/channels.c:2912-2980 | A poll takes a prefix of the input buffer, no longer than the peer allows, and pays for it from the send window |
| `FlowControl.DataEffect` | 5g/group_key_mgmt/openssh-9.6p1/channels.c:3366-3432 | Data within the window is appended to the output, or counted as consumed when the output side no longer takes data |
| `ChannelIo.Channel.constructor` | 5g/group_key_mgmt/openssh-9.6p1/channels.c:449-506 | A new channel has full windows, empty buffers and both sides open |
| `ChannelIo.Channel.HandleReadable` | 5g/group_key_mgmt/openssh-9.6p1/channels.c:2067-2113 | The in-place read event appends just the bytes taken, within the send window, and starts draining the input side exactly at end of file or an error |
| `ChannelIo.Channel.HandleWritable` | 5g/group_key_mgmt/openssh-9.6p1/channels.c:2152-2241 | The in-place write event leaves exactly the channel and messages of HandleWfd, for every result of the write; WriteEffect shows no byte is lost on success |
| `ChannelIo.Channel.WriteFailed` | 5g/group_key_mgmt/openssh-9.6p1/nchan.c:307-324 | The output side is closed, its buffered bytes are discarded without credit, and EOW is sent only to a peer that understands it |
| `ChannelIo.Channel.ReviewWindow` | 5g/group_key_mgmt/openssh-9.6p1/channels.c:2319-2345 | Credit is sent when enough was consumed, and the window grows by just that credit |
| `ChannelIo.Channel.PollInput` | 5g/group_key_mgmt/openssh-9.6p1/channels.c:2912-2980 | At most one data packet, within the window and packet size of the peer, and EOF only once a draining input side is empty |
| `ChannelIo.Channel.ReceiveData` | 5g/group_key_mgmt/openssh-9.6p1/channels.c:3366-3432 | Window, buffer, consumed count and complaint for every packet, the oversized and the excessive included |
| `ChannelIo.Channel.ReceiveAdjust` | 5g/group_key_mgmt/openssh-9.6p1/channels.c:3620-3648 | The send window grows by the credit unless it would overflow 32 bits |
| `ChannelIo.Channel.DrainedOutput` | 5g/group_key_mgmt/openssh-9.6p1/nchan.c:150-169 | A draining output side closes once its buffer is empty |
| `ChannelIo.Channel.ReceiveEof` | 5g/group_key_mgmt/openssh-9.6p1/nchan.c:254-265 | EOF starts draining, and an output side with nothing buffered closes at once |
| `ChannelIo.Channel.ReceiveEow` | 5g/group_key_mgmt/openssh-9.6p1/nchan.c:171-181 | EOW closes an input side that is open and leaves everything else |
| `ChannelIo.Channel.ReceiveClose` | 5g/group_key_mgmt/openssh-9.6p1/nchan.c:267-305 | CLOSE closes the input side, with an EOF only if it was draining, and starts draining an open output side |
| `ChannelIo.Channel.GarbageCollect` | 5g/group_key_mgmt/openssh-9.6p1/nchan.c:332-371 | CLOSE is sent once both sides are closed, and the channel is dead exactly when CLOSE went both ways |
| `MuxProxy.RoutesToOwner` | 5g/group_key_mgmt/openssh-9.6p1/channels.c:3254-3330 | In every run a server packet for a proxy channel is appended to the output of exactly the mux client that opened it, under that client's own id, even when clients reuse ids; a live client stays; the packet goes astray if and only if some earlier step freed that client after it had been marked dead |
| `MuxProxy.ClientGoneIff` | 5g/group_key_mgmt/openssh-9.6p1/channels.c:698-762 | In every run the client of a proxy is gone if and only if an earlier step of the run freed that client while it was marked dead; freeing it as a mux client would have detached the proxy |
| `MuxProxy.RunAttaches` | 5g/group_key_mgmt/openssh-9.6p1/channels.c:698-762 | After every run each proxy still has its client in the table, marked dead or not, unless that client was freed dead; mux clients are never found by a remote id |
| `MuxProxy.DeadAreGone` | 5g/group_key_mgmt/openssh-9.6p1/channels.c:449-506 | A channel freed after it was marked dead never comes back under the same identity, however the table is reused and grows |
| `MuxProxy.CarefulReaches` | 5g/group_key_mgmt/openssh-9.6p1/channels.c:698-762 | In a run that frees no dead client with proxies left, the client is still there and no packet goes astray |
| `MuxProxy.RunRecords` | 5g/group_key_mgmt/openssh-9.6p1/channels.c:3131-3182 | In every run slot i holds a channel with self = i, serials are distinct, and each proxy still records the client that opened it and the id it chose |
| `MuxTraffic.RelaysToServer` | 5g/group_key_mgmt/openssh-9.6p1/channels.c:3100-3246 | In every run a message of a mux client goes up as exactly one message, unless it asks for a bad port: OPEN and CONFIRMATION under the slot of the new proxy, which records client and id, everything else with the bytes of the client; only a full table ends the run instead |
| `MuxTraffic.OthersAreSilent` | 5g/group_key_mgmt/openssh-9.6p1/channels.c:666-720 | Nothing else is sent, except the cancellations when a mux client is freed |
| `MuxTraffic.CancelsAre` | 5g/group_key_mgmt/openssh-9.6p1/channels.c:666-695 | Exactly the permissions of that client are cancelled, each once and in order |
| `MuxTraffic.RemoteIsTold` | 5g/group_key_mgmt/openssh-9.6p1/channels.c:3314-3320 | In every run the remote id of a proxy is the one told last, by the confirmation of the server for it or by the one with which its client opened it |
| `MuxTraffic.FlagsAre` | 5g/group_key_mgmt/openssh-9.6p1/channels.c:3211-3327 | In every run the flags of a proxy say which CLOSE messages for it have passed, and both never have |
| `MuxTraffic.LeavesIff` | 5g/group_key_mgmt/openssh-9.6p1/channels.c:3211-3327 | In every run a proxy leaves the table at exactly the steps that release it or with which CLOSE has passed in both directions |
| `MuxProxy.Stable` | 5g/group_key_mgmt/openssh-9.6p1/channels.c:449-506 | No step renumbers a channel: it leaves its slot if and only if the step frees it (a release, a server CLOSE after the client sent one, a client CLOSE after the server sent one), otherwise slot and identity stay; a proxy keeps its client and id, and stops being one if and only if the step frees its mux client |
| `MuxProxy.FreeClearsIff` | 5g/group_key_mgmt/openssh-9.6p1/channels.c:698-762 | In every table that a run can leave, after channel_free nothing refers to the freed channel if and only if it was still of type MUX_CLIENT or nothing referred to it before |
| `MuxProxy.StaleRunExists` | 5g/group_key_mgmt/openssh-9.6p1/channels.c:2409-2432 | A client marked dead before it is freed leaves a proxy that points to it: a run that forwards to a client that is gone |
| `MuxProxy.RunKeeps` | 5g/group_key_mgmt/openssh-9.6p1/channels.c:3100-3330 | Every careful run keeps the table sound: slot i holds a channel with self = i, serials are distinct, every proxy points to the live client that opened it |
| `MuxProxy.StepKeeps` | 5g/group_key_mgmt/openssh-9.6p1/channels.c:3100-3330 | Every careful step keeps that invariant |
| `MuxProxy.FreeKeeps` | 5g/group_key_mgmt/openssh-9.6p1/channels.c:698-762 | Freeing a channel that nothing refers to, or a mux client, keeps the invariant and leaves no reference to it |
| `MuxProxy.Channels.constructor` | 5g/group_key_mgmt/openssh-9.6p1/channels.c:234-247 | An empty table |
| `MuxProxy.Channels.ChannelNew` | 5g/group_key_mgmt/openssh-9.6p1/channels.c:449-506 | The first free slot is used, or the table grows by ten slots up to the limit |
| `MuxProxy.Channels.RemoveRemoteForwardings` | 5g/group_key_mgmt/openssh-9.6p1/channels.c:666-695 | Every permission of that client is cleared and cancelled upstream, the others stay |
| `MuxProxy.Channels.DetachProxies` | 5g/group_key_mgmt/openssh-9.6p1/channels.c:707-720 | Every proxy of that client is detached, the other channels stay |
| `MuxProxy.Channels.ChannelFree` | 5g/group_key_mgmt/openssh-9.6p1/channels.c:698-762 | The table of Free: a mux client takes its proxies and permissions with it, any other channel only itself |
| `MuxProxy.Channels.ChannelByRemoteId` | 5g/group_key_mgmt/openssh-9.6p1/channels.c:266-278 | The first channel with that remote id, or none |
| `MuxProxy.Channels.ProxyDownstream` | 5g/group_key_mgmt/openssh-9.6p1/channels.c:3100-3246 | Every message from a mux client leaves the table of Downstream: a new proxy for an open or a confirmation, ids rewritten towards the server, a proxy freed once CLOSE went both ways |
| `MuxProxy.Channels.NewProxy` | 5g/group_key_mgmt/openssh-9.6p1/channels.c:3131-3182 | A proxy channel that remembers the client and the id it chose |
| `MuxProxy.Channels.ProxyUpstream` | 5g/group_key_mgmt/openssh-9.6p1/channels.c:3254-3330 | Every server packet leaves the table of Upstream, with the id of the client restored; RoutesToOwner says who gets it |
| `MethodLists.FrontEntry` | 5g/group_key_mgmt/openssh-9.6p1/auth2.c:651-676 | list_starts_with answers a full match exactly when the first entry of the list is that method, with that device if it names one |
| `MethodLists.RemoveDropsFirst` | 5g/group_key_mgmt/openssh-9.6p1/auth2.c:683-701 | On a well-formed list remove_method succeeds exactly when the first entry fits, and then the list denotes its entries without the first |
| `MethodLists.GreedyIsBest` | 5g/group_key_mgmt/openssh-9.6p1/auth2.c:709-732 | Matching each success against the next entry only is never worse than any other way to place the entries on the successes |
| `MethodLists.GreedyComplete` | 5g/group_key_mgmt/openssh-9.6p1/auth2.c:709-732 | Greedy matching uses up a list exactly when the list is a subsequence of the successes |
| `MethodLists.UpdateMeaning` | 5g/group_key_mgmt/openssh-9.6p1/auth2.c:709-732 | One update completes exactly when some list has one entry left and it fits; it is refused exactly when no first entry fits; otherwise each list loses its first entry exactly when that fits |
| `MethodLists.PendingIsSuffix` | 5g/group_key_mgmt/openssh-9.6p1/auth2.c:612-732 | After any successes every pending list is the configured one without its greedily matched prefix |
| `MethodLists.OneMoreEvent` | 5g/group_key_mgmt/openssh-9.6p1/auth2.c:709-732 | For one list: what is left of it decides whether one more success makes the list a subsequence |
| `MethodLists.CompletesWhenSubsequence` | 5g/group_key_mgmt/openssh-9.6p1/auth2.c:394-399 | Authentication completes exactly at the first success that makes some configured list a subsequence of all successes |
| `UserAuth.SuccessIffListMet` | 5g/group_key_mgmt/openssh-9.6p1/auth2.c:362-466 | Over every run: success exactly when the successes contain some required list as a subsequence, and not before the last of them; with no list, at the first success |
| `UserAuth.TriesBounded` | 5g/group_key_mgmt/openssh-9.6p1/auth2.c:290-353 | Over every run, cut off or not: handlers start only below max_authtries failures and within 1024 attempts, success only for a valid user with nothing postponed; a run that goes on has failures below the limit |
| `UserAuth.KeysNeverReused` | 5g/group_key_mgmt/openssh-9.6p1/auth2-pubkey.c:156-159 | Over every run, cut off or not, no two publickey successes use equal public keys |
| `UserAuth.SuccessesAreProved` | 5g/group_key_mgmt/openssh-9.6p1/auth2-pubkey.c:220-264 | Over every run the keys that succeeded came, in order, in requests signed by them with the signature verified and every other check passed, and the successes handed to the lists rest one for one on packets that grant them, of methods that are switched on |
| `UserAuth.ProofSucceeds` | 5g/group_key_mgmt/openssh-9.6p1/auth2-pubkey.c:220-264 | A request of a valid user signed by an unused key always counts: it is recorded and, without required lists, logs the user in unless root is refused |
| `UserAuth.PubkeyIff` | 5g/group_key_mgmt/openssh-9.6p1/auth2-pubkey.c:131-264 | A publickey handler authenticates exactly a valid user whose request is signed by an unused key |
| `UserAuth.UsedWerePresented` | 5g/group_key_mgmt/openssh-9.6p1/auth2-pubkey.c:264 | A key counts as used only if some packet of the run presented it |
| `UserAuth.RefusalCharged` | 5g/group_key_mgmt/openssh-9.6p1/auth2.c:445-454 | A refused request is charged and ends the connection exactly when it reaches max_authtries |
| `UserAuth.GuessesBounded` | 5g/group_key_mgmt/openssh-9.6p1/auth2.c:445-454 | A run that is neither cut off nor successful contains fewer refused requests than max_authtries, and has charged each of them |
| `UserAuth.HandlerStartsIff` | 5g/group_key_mgmt/openssh-9.6p1/auth2.c:344-350 | A handler starts exactly for a method that is known, switched on and expected by a pending list while the limit is not reached; none is off once it was tried |
| `UserAuth.DialogueStarts` | 5g/group_key_mgmt/openssh-9.6p1/auth2-chall.c:220-250 | A request that a device answers with questions starts a dialogue with that device, at no cost |
| `UserAuth.DialogueGoes` | 5g/group_key_mgmt/openssh-9.6p1/auth2-chall.c:289-360 | A response makes the device ask again, moves on to the next device, or ends in the success of the device that asked or in a charged failure |
| `UserAuth.FirstRequestDecides` | 5g/group_key_mgmt/openssh-9.6p1/auth2.c:292-303 | The first request alone says who is authenticated; the user is valid only if known and asking for the connection service |
| `UserAuth.OtherUserEnds` | 5g/group_key_mgmt/openssh-9.6p1/auth2.c:325-331 | A later request for another user or service ends the connection |
| `UserAuth.IdentityFixed` | 5g/group_key_mgmt/openssh-9.6p1/auth2.c:290-330 | User, service and validity never change after the first request, whatever packets follow |
| `UserAuth.RunSafe` | 5g/group_key_mgmt/openssh-9.6p1/auth2.c:268-466 | No packet of any kind breaks the invariant behind the bounds and the key rule, not even one that ends the connection |
| `UserAuth.RunKeeps` | 5g/group_key_mgmt/openssh-9.6p1/auth2.c:268-466 | Every run with plausible device names keeps the pending lists in step with the successes |
| `UserAuth.ValidIsWellFormed` | 5g/group_key_mgmt/openssh-9.6p1/auth2.c:563-603 | A list that auth2_methods_valid accepts is well-formed and every entry names a method of the table, without comma or colon |
| `UserAuth.TableIsClean` | 5g/group_key_mgmt/openssh-9.6p1/auth2.c:521-536 | No method name of the table has a comma or a colon |
| `UserAuth.HasName` | 5g/group_key_mgmt/openssh-9.6p1/auth2.c:577-590 | Whether the table has a method of that name |
| `UserAuth.MethodsValid` | 5g/group_key_mgmt/openssh-9.6p1/auth2.c:563-603 | A list is accepted exactly when it is not empty and every method it names is known and enabled |
| `UserAuth.Authctxt.constructor` | 5g/group_key_mgmt/openssh-9.6p1/auth2.c:170-181 | The context before the first request |
| `UserAuth.Authctxt.SetupMethodsLists` | 5g/group_key_mgmt/openssh-9.6p1/auth2.c:612-649 | The pending lists are the valid ones among those configured; it fails when lists are required and none is valid |
| `UserAuth.Authctxt.UpdateMethodsLists` | 5g/group_key_mgmt/openssh-9.6p1/auth2.c:709-732 | New pending lists, completion and refusal as UpdateLists says |
| `UserAuth.Authctxt.KeyAlreadyUsed` | 5g/group_key_mgmt/openssh-9.6p1/auth2.c:795-813 | Whether a recorded key has the same public part |
| `UserAuth.Authctxt.UserauthPubkey` | 5g/group_key_mgmt/openssh-9.6p1/auth2-pubkey.c:156-298 | Outcome of a publickey request: a used key is refused before anything else, an accepted key is recorded |
| `UserAuth.Authctxt.ChargeFailure` | 5g/group_key_mgmt/openssh-9.6p1/auth2.c:445-454 | One more failure, except for a first "none" request or a failure the server caused, and the connection cut exactly at max_authtries |
| `UserAuth.Authctxt.AdmitSuccess` | 5g/group_key_mgmt/openssh-9.6p1/auth2.c:394-442 | Success when no list is required or a list is completed, else partial success with the lists stripped, and a fatal end for a method no list expects |
| `UserAuth.Authctxt.UserauthFinish` | 5g/group_key_mgmt/openssh-9.6p1/auth2.c:362-466 | The context of Finish for every outcome; with AdmitSuccess and ChargeFailure the step that the run results are about |
| `UserAuth.Authctxt.LookupMethod` | 5g/group_key_mgmt/openssh-9.6p1/auth2.c:538-556 | The method of that name that is enabled and allowed by the pending lists |
| `UserAuth.Authctxt.InputRequest` | 5g/group_key_mgmt/openssh-9.6p1/auth2.c:268-360 | The context of Handle for any request: identity fixed once, a changed user or service fatal, handlers only below the limits |
| `UserAuth.Authctxt.InputInfoResponse` | 5g/group_key_mgmt/openssh-9.6p1/auth2-chall.c:289-360 | The context of Handle for any response; one that is not awaited ends the connection, except before the first request |
| `KeyOptions.MergeAssociates` | 5g/group_key_mgmt/openssh-9.6p1/auth-options.c:533-655 | Both groupings of three options fail exactly when two set forced commands differ; else they agree on every field but valid_before, and on that one too if and only if the middle operand does not hide the earlier expiry of the last |
| `KeyOptions.EarliestWinsIff` | 5g/group_key_mgmt/openssh-9.6p1/auth-options.c:611-616 | The earliest expiry wins if and only if the primary has one or the additional options have none |
| `KeyOptions.ExpiryCanVanish` | 5g/group_key_mgmt/openssh-9.6p1/auth-options.c:611-616 | An input for which the expiry of the additional options is dropped |
| `KeyOptions.GroupingMatters` | 5g/group_key_mgmt/openssh-9.6p1/auth-options.c:611-616 | Three options for which the two groupings end with different expiries |
| `KeyOptions.ActivationSucceedsIff` | 5g/group_key_mgmt/openssh-9.6p1/auth.c:825-837 | Any sequence of activations succeeds exactly when no two set forced commands differ, and then the first one set is in force |
| `KeyOptions.CommandsMeaning` | 5g/group_key_mgmt/openssh-9.6p1/auth-options.c:618-646 | The command in force is the one every activation that sets one agrees on |
| `KeyOptions.SessionRestrictions` | 5g/group_key_mgmt/openssh-9.6p1/auth.c:825-837 | After any sequence of successful activations a permission holds exactly when all grant it, and verification is required exactly when one requires it |
| `KeyOptions.FirstSettingWins` | 5g/group_key_mgmt/openssh-9.6p1/auth-options.c:551-596 | After any successful activations environment, permitopen, permitlisten, tunnel device, command and the two host restrictions are as the first of start and activations that sets them, and unset exactly when none does |
| `KeyOptions.AuthenticationOnly` | 5g/group_key_mgmt/openssh-9.6p1/auth-options.c:547 | After any activation certificate principals, authority flag and restriction are cleared |
| `KeyOptions.SessionExpiry` | 5g/group_key_mgmt/openssh-9.6p1/auth-options.c:611-616 | Over any sequence of successful activations the expiry is the earliest one set if the starting options have one, and stays unset if they have none |
| `KeyOptions.CommandStays` | 5g/group_key_mgmt/openssh-9.6p1/auth.c:825-837 | A forced command, once set, is the same after any further activations |
| `KeyOptions.RestrictionLeaves` | 5g/group_key_mgmt/openssh-9.6p1/auth.c:840-856 | Restricting a session never fails and leaves only a permitted terminal and the forced command |
| `KeyOptions.Session.ActivateOptions` | 5g/group_key_mgmt/openssh-9.6p1/auth.c:825-837 | The global options become the merge with the old ones as primary, or are lost when it fails |
| `KeyOptions.Session.RestrictSession` | 5g/group_key_mgmt/openssh-9.6p1/auth.c:840-856 | The global options become their merge with the restriction |
| `KeyOptionsCodec.DecodeEncode` | 5g/group_key_mgmt/openssh-9.6p1/auth-options.c:797-912 | Deserialising what was serialised leaves exactly the trailing bytes and gives the options back, but for flags beyond a byte and tunnel devices below -1 |
| `KeyOptionsCodec.RoundTripIff` | 5g/group_key_mgmt/openssh-9.6p1/auth-options.c:797-912 | The options come back equal if and only if every flag fits a byte and the tunnel device is at least -1 |
| `KeyOptionsCodec.UntrustedForm` | 5g/group_key_mgmt/openssh-9.6p1/auth-options.c:822-844 | The form for an untrusted receiver shows placeholders only and does not depend on what they hide |
| `KeyOptionsCodec.NullableRoundTrip` | 5g/group_key_mgmt/openssh-9.6p1/auth-options.c:773-795 | Absent and empty strings stay distinct |
| `KeyOptionsCodec.ArrayRoundTrip` | 5g/group_key_mgmt/openssh-9.6p1/auth-options.c:705-771 | Arrays of any length come back equal |
| `KeyOptionsCodec.HeadRoundTrip` | 5g/group_key_mgmt/openssh-9.6p1/auth-options.c:797-820 | The nine flags, the expiry and the tunnel device come back as DecodeEncode says |
| `KeyOptionsCodec.HeadLayout` | 5g/group_key_mgmt/openssh-9.6p1/auth-options.c:801-824 | On the wire stand the nine flags in this order, the expiry in eight bytes, a byte that tells of no tunnel device, and the device in four |
| `KeyOptionsCodec.FieldsInOrder` | 5g/group_key_mgmt/openssh-9.6p1/auth-options.c:826-843 | After them the four strings and the three lists can be read in this order, and nothing is left |
| `KeyOptionsCodec.Buffer.SerialiseNullable` | 5g/group_key_mgmt/openssh-9.6p1/auth-options.c:773-782 | Appends the encoding exactly when it fits the buffer limit |
| `KeyOptionsCodec.Buffer.SerialiseArray` | 5g/group_key_mgmt/openssh-9.6p1/auth-options.c:705-730 | Appends the encoding exactly when it fits the buffer limit |
| `KeyOptionsCodec.Buffer.Serialise` | 5g/group_key_mgmt/openssh-9.6p1/auth-options.c:797-847 | Appends the encoding of the options, or of their untrusted form, exactly when it fits the buffer limit |
| `KeyOptionsCodec.Buffer.DeserialiseNullable` | 5g/group_key_mgmt/openssh-9.6p1/auth-options.c:784-795 | Consumes one nullable string, telling absent from empty, or fails exactly where GetNullable does |
| `KeyOptionsCodec.Buffer.DeserialiseArray` | 5g/group_key_mgmt/openssh-9.6p1/auth-options.c:732-771 | Consumes one array of the announced length, or fails exactly where GetArray does |
| `KeyOptionsCodec.Buffer.Deserialise` | 5g/group_key_mgmt/openssh-9.6p1/auth-options.c:849-912 | Consumes one encoding and leaves the rest, or fails exactly on what Decode rejects |
| `DhGroups.BestMeaning` | 5g/group_key_mgmt/openssh-9.6p1/dh.c:173-192 | The first pass settles on the largest in-range size while none reaches wantbits, else on one that no in-range size above wantbits undercuts; on nothing only if nothing is in range |
| `DhGroups.NewBestIsNew` | 5g/group_key_mgmt/openssh-9.6p1/dh.c:180-189 | A size that takes over has not occurred before, so the count may start again |
| `DhGroups.OrderDecides` | 5g/group_key_mgmt/openssh-9.6p1/dh.c:180-186 | wantbits itself is chosen exactly when it is the first in-range size in the file that reaches it |
| `DhGroups.SmallestIff` | 5g/group_key_mgmt/openssh-9.6p1/dh.c:180-186 | The smallest size that reaches wantbits is chosen if and only if wantbits does not occur or comes first among the sizes that reach it |
| `DhGroups.LargerSizeKept` | 5g/group_key_mgmt/openssh-9.6p1/dh.c:180-186 | A file for which a larger size is kept although wantbits is listed |
| `DhGroups.FirstPass` | 5g/group_key_mgmt/openssh-9.6p1/dh.c:173-192 | best as above and bestcount the exact number of lines of that size in the whole file |
| `DhGroups.SecondPass` | 5g/group_key_mgmt/openssh-9.6p1/dh.c:206-228 | Finds line number `which` of the chosen size exactly when the file still has that many |
| `DhGroups.ChooseDh` | 5g/group_key_mgmt/openssh-9.6p1/dh.c:158-231 | On an unchanged file a group is found whenever some size is in range, and it is the one the random number picked |
| `DhGroups.NthUnique` | 5g/group_key_mgmt/openssh-9.6p1/dh.c:206-228 | Each number picks one line only |
| `AtomicIo.AtomicIoV` | 5g/group_key_mgmt/openssh-9.6p1/atomicio.c:104-172 | Against any results of the transfer function: the cells moved are a prefix of the vector in order, all of it on completion unless the first entry is empty, the count is exact, and EFAULT happens if and only if the results consumed report more than the vector holds; an early end is the one that the last result consumed says, and no earlier result says one |
| `AtomicIo.AtomicIo6` | 5g/group_key_mgmt/openssh-9.6p1/atomicio.c:50-93 | Call k is given the bytes from what the calls before it moved; the count is what they report, above n if they over-report, and the loop completes exactly when it reaches n; an early end is the one that the last result says |
| `AtomicIo.Skip` | 5g/group_key_mgmt/openssh-9.6p1/atomicio.c:146-157 | The entries that a transfer completed are skipped, inner empty ones included |
| `AtomicIo.Advance` | 5g/group_key_mgmt/openssh-9.6p1/atomicio.c:146-165 | The remaining vector denotes the old one from the transferred byte on; a fault exactly when more was reported than remained |
| `AtomicIo.CellsAdvance` | 5g/group_key_mgmt/openssh-9.6p1/atomicio.c:158-165 | Moving base and length of the first entry drops that many cells |
| `AtomicIo.EmptyFirstEntry` | 5g/group_key_mgmt/openssh-9.6p1/atomicio.c:127-128 | A vector with an empty first entry counts as complete although its byte was not moved |
| `AtomicIo.WritesPrefix` | 5g/group_key_mgmt/openssh-9.6p1/atomicio.c:101-107 | What has been written is the beginning of what the vector held |
| `AtomicIo.ReadFillsVector` | 5g/group_key_mgmt/openssh-9.6p1/atomicio.c:101-107 | What has been read stands at the beginning of the vector, and the rest of it is as before, when no cell is listed twice |
| `Bitmap.ImportExport` | 5g/group_key_mgmt/openssh-9.6p1/bitmap.c:167-214 | The exported bytes read back as the same number, and no shorter string does |
| `Bitmap.ExportImport` | 5g/group_key_mgmt/openssh-9.6p1/bitmap.c:188-214 | Exporting what was imported gives the string without leading zero bytes |
| `Bitmap.ReimportableIff` | 5g/group_key_mgmt/openssh-9.6p1/bitmap.c:188-214 | An export can be imported again if and only if every member is below 2^24 |
| `Bitmap.LargestBitNotImportable` | 5g/group_key_mgmt/openssh-9.6p1/bitmap.c:100-113 | Bit 2^24 can be set, and its export is too long to import |
| `Bitmap.SameMembers` | 5g/group_key_mgmt/openssh-9.6p1/bitmap.c:167-214 | A set has one number only, so equal exports are equal sets |
| `Bitmap.BitLenIsMaximum` | 5g/group_key_mgmt/openssh-9.6p1/bitmap.c:140-159 | nbits is one more than the largest member |
| `Bitmap.BitLenOfTop` | 5g/group_key_mgmt/openssh-9.6p1/bitmap.c:140-159 | It follows from the top word and its leading zeros |
| `Bitmap.MemberOfWord` | 5g/group_key_mgmt/openssh-9.6p1/bitmap.c:71-79 | Membership of n is digit n mod 32 of word n / 32 |
| `Bitmap.SetMember` | 5g/group_key_mgmt/openssh-9.6p1/bitmap.c:100-113 | OR with the bit adds just that member |
| `Bitmap.ClearMember` | 5g/group_key_mgmt/openssh-9.6p1/bitmap.c:125-138 | AND with the complement removes just that member |
| `Bitmap.MergeByte` | 5g/group_key_mgmt/openssh-9.6p1/bitmap.c:200-212 | One imported byte lands on its own eight members |
| `Bitmap.BitMap.constructor` | 5g/group_key_mgmt/openssh-9.6p1/bitmap.c:37-51 | The empty set |
| `Bitmap.BitMap.Zero` | 5g/group_key_mgmt/openssh-9.6p1/bitmap.c:64-69 | The empty set again |
| `Bitmap.BitMap.TestBit` | 5g/group_key_mgmt/openssh-9.6p1/bitmap.c:71-79 | Membership, for every n |
| `Bitmap.BitMap.Reserve` | 5g/group_key_mgmt/openssh-9.6p1/bitmap.c:81-98 | Growth keeps the set; it fails exactly beyond the limit |
| `Bitmap.BitMap.SetBit` | 5g/group_key_mgmt/openssh-9.6p1/bitmap.c:100-113 | Adds n, or fails and keeps the set |
| `Bitmap.BitMap.Retop` | 5g/group_key_mgmt/openssh-9.6p1/bitmap.c:115-123 | The set stays, and the top word is the highest one in use |
| `Bitmap.BitMap.ClearBit` | 5g/group_key_mgmt/openssh-9.6p1/bitmap.c:125-138 | Removes n |
| `Bitmap.BitMap.Nbits` | 5g/group_key_mgmt/openssh-9.6p1/bitmap.c:140-159 | One more than the largest member, 0 for the empty set |
| `Bitmap.BitMap.LeadingZeros` | 5g/group_key_mgmt/openssh-9.6p1/bitmap.c:151-157 | The shift loop ends after just the leading zeros of the top word |
| `Bitmap.BitMap.ToString` | 5g/group_key_mgmt/openssh-9.6p1/bitmap.c:167-186 | Writes the minimal big-endian bytes of the set, or fails exactly when they do not fit |
| `Bitmap.BitMap.FromString` | 5g/group_key_mgmt/openssh-9.6p1/bitmap.c:188-214 | The set of the number the bytes spell, or failure and the old set |
| `Cbc.DecryptEncrypt` | 5g/group_key_mgmt/openssh-9.6p1/cipher-aes.c:85-112 | For any cipher with D(E(x)) = x decryption undoes encryption |
| `Cbc.EncryptedBlock` | 5g/group_key_mgmt/openssh-9.6p1/cipher-aes.c:85-97 | Ciphertext block i is the encryption of plaintext block i XOR the ciphertext block before it, or the vector |
| `Cbc.DecryptedBlock` | 5g/group_key_mgmt/openssh-9.6p1/cipher-aes.c:98-112 | Plaintext block i is the decryption of ciphertext block i XOR the ciphertext block before it, or the vector |
| `Cbc.CallsInvert` | 5g/group_key_mgmt/openssh-9.6p1/cipher-aes.c:70-114 | Decrypting any sequence of calls inverts encrypting it, call by call, through the carried vector |
| `Cbc.EncryptJoined` | 5g/group_key_mgmt/openssh-9.6p1/cipher-aes.c:85-97 | One call on joined data is two calls with the carried vector |
| `Cbc.DecryptJoined` | 5g/group_key_mgmt/openssh-9.6p1/cipher-aes.c:98-112 | The same for decryption |
| `Cbc.EncryptCallsJoin` | 5g/group_key_mgmt/openssh-9.6p1/cipher-aes.c:85-97 | How a stream is cut into calls at block boundaries does not show in the ciphertext |
| `Cbc.DecryptCallsJoin` | 5g/group_key_mgmt/openssh-9.6p1/cipher-aes.c:98-112 | Nor in the plaintext |
| `Cbc.RecutStream` | 5g/group_key_mgmt/openssh-9.6p1/cipher-aes.c:70-114 | A receiver that cuts the ciphertext elsewhere still gets the plaintext stream |
| `Cbc.XorBuffers` | 5g/group_key_mgmt/openssh-9.6p1/cipher-aes.c:91-92 | The inner loop of encryption computes the XOR of the plaintext block and the previous ciphertext block |
| `Cbc.XorInto` | 5g/group_key_mgmt/openssh-9.6p1/cipher-aes.c:108-109 | The inner loop of decryption changes just that block of the buffer, to its XOR with the previous ciphertext block |
| `Cbc.Context.EncryptBlocks` | 5g/group_key_mgmt/openssh-9.6p1/cipher-aes.c:85-97 | Chained encryption and the new vector, also when dest is src |
| `Cbc.Context.DecryptBlock` | 5g/group_key_mgmt/openssh-9.6p1/cipher-aes.c:104-110 | One turn of the backward loop leaves just the blocks before it to do, also when dest is src |
| `Cbc.Context.DecryptBlocks` | 5g/group_key_mgmt/openssh-9.6p1/cipher-aes.c:98-112 | Chained decryption and the new vector, also when dest is src |
| `Cbc.Context.Crypt` | 5g/group_key_mgmt/openssh-9.6p1/cipher-aes.c:70-114 | Both directions; an empty call changes nothing and a partial block is fatal |
| `Ctr.IncEarlyExit` | 5g/group_key_mgmt/openssh-9.6p1/cipher-aesctr.c:37-40 | Stopping at the first byte that does not overflow yields the counter plus one, all bytes included |
| `Ctr.IncConstantTime` | 5g/group_key_mgmt/openssh-9.6p1/cipher-aesctr.c:41-53 | The same value without branches |
| `Ctr.ZeroTest` | 5g/group_key_mgmt/openssh-9.6p1/cipher-aesctr.c:46-50 | The three folds give 0 for the zero byte and 1 for every other |
| `Ctr.IsZero` | 5g/group_key_mgmt/openssh-9.6p1/cipher-aesctr.c:46-51 | The branch-free test used for the carry |
| `Ctr.IncrementedNumber` | 5g/group_key_mgmt/openssh-9.6p1/cipher-aesctr.c:32-54 | As a number the counter grows by one and wraps at 256^len |
| `Ctr.AdvancedIs` | 5g/group_key_mgmt/openssh-9.6p1/cipher-aesctr.c:32-54 | k increments add k modulo 256^len, for every length |
| `Ctr.EncryptedByte` | 5g/group_key_mgmt/openssh-9.6p1/cipher-aesctr.c:68-82 | Byte i is XORed with byte i mod 16 of E(counter + i / 16) |
| `Ctr.EncryptTwice` | 5g/group_key_mgmt/openssh-9.6p1/cipher-aesctr.c:68-82 | From the same counter encryption is its own inverse |
| `Ctr.EncryptJoined` | 5g/group_key_mgmt/openssh-9.6p1/cipher-aesctr.c:68-82 | A call on whole blocks followed by another is one call |
| `Ctr.EncryptCalls` | 5g/group_key_mgmt/openssh-9.6p1/cipher-aesctr.c:68-82 | A message cut at multiples of 16 over any number of calls is encrypted as by one call |
| `Ctr.Context.constructor` | 5g/group_key_mgmt/openssh-9.6p1/cipher-aesctr.c:62-66 | The counter is the vector given |
| `Ctr.Context.KeyBlockAt` | 5g/group_key_mgmt/openssh-9.6p1/cipher-aesctr.c:75-78 | A new key block exactly at the first byte of a block |
| `Ctr.Context.EncryptBytes` | 5g/group_key_mgmt/openssh-9.6p1/cipher-aesctr.c:68-82 | The encrypted bytes, nothing beyond them, and the counter advanced by the blocks begun; also when c is m |
| `ChaCha.RotlBits` | 5g/group_key_mgmt/openssh-9.6p1/chacha.c:23-24 | ROTL32 rotates: digit k comes from k - n around 32 |
| `ChaChaVectors.RotlExchanges` | 5g/group_key_mgmt/openssh-9.6p1/chacha.c:23-24 | Rotating left by n exchanges the upper n and the lower 32 - n digits of the word |
| `ChaChaVectors.QuarterTouches` | 5g/group_key_mgmt/openssh-9.6p1/chacha.c:45-49 | A quarter round changes its four words and no other |
| `ChaChaVectors.ColumnsMix` | 5g/group_key_mgmt/openssh-9.6p1/chacha.c:140-143 | The first four quarter rounds mix each column of the state, and column j only from column j |
| `ChaChaVectors.DiagonalsMix` | 5g/group_key_mgmt/openssh-9.6p1/chacha.c:144-147 | The other four mix each diagonal, which starts in column j and goes round |
| `ChaChaVectors.ColumnsThenDiagonals` | 5g/group_key_mgmt/openssh-9.6p1/chacha.c:139-148 | A double round mixes the diagonals of the state whose columns have been mixed |
| `ChaChaVectors.BlockWord` | 5g/group_key_mgmt/openssh-9.6p1/chacha.c:149-164 | Each word of a block is the word after ten double rounds plus the input word, modulo 2^32 |
| `ChaChaVectors.QuarterVector` | 5g/group_key_mgmt/openssh-9.6p1/chacha.c:45-49 | The test vector of section 2.1.1 of RFC 8439 |
| `ChaChaVectors.StateVector` | 5g/group_key_mgmt/openssh-9.6p1/chacha.c:146 | The test vector of section 2.2.1 of RFC 8439, whatever the other words of the state are |
| `ChaChaVectors.DiagonalVector` | 5g/group_key_mgmt/openssh-9.6p1/chacha.c:146 | The quarter round of that vector is the third diagonal of a double round |
| `ChaChaVectors.ConstantsSpell` | 5g/group_key_mgmt/openssh-9.6p1/chacha.c:51-52 | The two constants are the characters of their strings |
| `ChaCha.QuarterBack` | 5g/group_key_mgmt/openssh-9.6p1/chacha.c:45-49 | A quarter round can be undone |
| `ChaCha.RoundsInjective` | 5g/group_key_mgmt/openssh-9.6p1/chacha.c:137-146 | Any number of double rounds is a permutation of the states |
| `ChaCha.NoncesStayApart` | 5g/group_key_mgmt/openssh-9.6p1/chacha.c:79-86 | Different nonces never meet in the rounds |
| `ChaCha.XorLoaded` | 5g/group_key_mgmt/openssh-9.6p1/chacha.c:164-179 | XOR of little-endian words is XOR of their bytes |
| `ChaCha.XorStateBytes` | 5g/group_key_mgmt/openssh-9.6p1/chacha.c:164-204 | XOR of sixteen words and storing them is XOR of 64 bytes |
| `ChaCha.WordsInjective` | 5g/group_key_mgmt/openssh-9.6p1/chacha.c:26-30 | Loading words loses no byte |
| `ChaCha.AdvancedIs` | 5g/group_key_mgmt/openssh-9.6p1/chacha.c:181-185 | k blocks add k to the 64-bit counter across its two words, modulo 2^64, and change nothing else |
| `ChaCha.PiecesAreStream` | 5g/group_key_mgmt/openssh-9.6p1/chacha.c:115-217 | Block by block, byte i meets byte i mod 64 of the block with counter + i / 64 |
| `ChaCha.EncryptedByte` | 5g/group_key_mgmt/openssh-9.6p1/chacha.c:88-218 | Byte i is XORed with byte i mod 64 of the block i / 64 counters on |
| `ChaCha.EncryptTwice` | 5g/group_key_mgmt/openssh-9.6p1/chacha.c:88-218 | From the same state encryption is its own inverse |
| `ChaCha.EncryptJoined` | 5g/group_key_mgmt/openssh-9.6p1/chacha.c:88-218 | A call on whole blocks followed by another is one call |
| `ChaCha.EncryptCalls` | 5g/group_key_mgmt/openssh-9.6p1/chacha.c:88-218 | A message cut at multiples of 64 over any number of calls is encrypted as by one call |
| `ChaCha.TwentyRounds` | 5g/group_key_mgmt/openssh-9.6p1/chacha.c:137-146 | The round loop makes ten double rounds |
| `ChaCha.Permute` | 5g/group_key_mgmt/openssh-9.6p1/chacha.c:121-162 | The rounds and the final addition compute the block function of the state |
| `ChaCha.Context.Block` | 5g/group_key_mgmt/openssh-9.6p1/chacha.c:121-162 | The key block used in the loop is the one Permute computes |
| `ChaCha.CryptBlock` | 5g/group_key_mgmt/openssh-9.6p1/chacha.c:164-204 | One whole block, also in place |
| `ChaCha.CryptTail` | 5g/group_key_mgmt/openssh-9.6p1/chacha.c:116-120 | A last partial block through a temporary one; bytes beyond it are not written |
| `ChaCha.Context.KeySetup` | 5g/group_key_mgmt/openssh-9.6p1/chacha.c:54-77 | The bytes of the state are the constant, then the key (twice when it is 128 bits), then the counter and nonce as they were |
| `ChaCha.Context.IvSetup` | 5g/group_key_mgmt/openssh-9.6p1/chacha.c:79-86 | The bytes of the state are the constant and key as they were, then the counter, zero when absent, then the nonce |
| `ChaCha.BytesOfWords` | 5g/group_key_mgmt/openssh-9.6p1/chacha.c:26-30 | Words loaded from bytes have those bytes again |
| `ChaCha.KeyBytes` | 5g/group_key_mgmt/openssh-9.6p1/chacha.c:54-77 | The words a key fixes are the bytes of the constant and the key |
| `ChaCha.SeedBytes` | 5g/group_key_mgmt/openssh-9.6p1/chacha.c:79-86 | The words of counter and nonce are their bytes |
| `ChaCha.Context.CryptPieces` | 5g/group_key_mgmt/openssh-9.6p1/chacha.c:115-217 | The block loop, also in place |
| `ChaCha.Context.EncryptBytes` | 5g/group_key_mgmt/openssh-9.6p1/chacha.c:88-218 | With the rounds computed in the loop: the encrypted bytes, nothing beyond them, and the counter advanced by ceil(bytes / 64); also in place |
| `ChachaPoly.OpenIff` | 5g/group_key_mgmt/openssh-9.6p1/cipher-chachapoly.c:68-120 | A packet is accepted with a certain content if and only if it is the sealing of that content, for any Poly1305 |
| `ChachaPoly.BodyTwice` | 5g/group_key_mgmt/openssh-9.6p1/cipher-chachapoly.c:97-108 | Header and payload are restored by a second pass |
| `ChachaPoly.PayloadByte` | 5g/group_key_mgmt/openssh-9.6p1/cipher-chachapoly.c:104-107 | Byte i of the payload meets the block of the main key with counter 1 + i / 64 |
| `ChachaPoly.HeaderByte` | 5g/group_key_mgmt/openssh-9.6p1/cipher-chachapoly.c:98-102 | Byte i of the header meets the block of the header key with counter i / 64 |
| `ChachaPoly.PolyKeyIs` | 5g/group_key_mgmt/openssh-9.6p1/cipher-chachapoly.c:81-85 | The key of the tag is the first half of the block of the main key with counter 0 |
| `ChachaPoly.BlocksApart` | 5g/group_key_mgmt/openssh-9.6p1/cipher-chachapoly.c:104-107 | Two blocks of one key and nonce coincide exactly when their counters do, so the payload never meets the key of the tag within 2^64 blocks |
| `ChachaPoly.SealedTag` | 5g/group_key_mgmt/openssh-9.6p1/cipher-chachapoly.c:109-113 | The packet ends in the tag of all its encrypted bytes under that key |
| `ChachaPoly.NonceIs` | 5g/group_key_mgmt/openssh-9.6p1/cipher-chachapoly.c:82 | The nonce is the sequence number in four big-endian bytes after four zero bytes |
| `ChachaPoly.LengthRecovered` | 5g/group_key_mgmt/openssh-9.6p1/cipher-chachapoly.c:123-136 | get_length gives the length field that was sealed, before the tag is checked |
| `ChachaPoly.HeaderPrefix` | 5g/group_key_mgmt/openssh-9.6p1/cipher-chachapoly.c:97-101 | The first header bytes do not depend on the rest |
| `ChachaPoly.Cipher.constructor` | 5g/group_key_mgmt/openssh-9.6p1/cipher-chachapoly.c:46-50 | First half of the key for the payload, second half for the header |
| `ChachaPoly.Cipher.New` | 5g/group_key_mgmt/openssh-9.6p1/cipher-chachapoly.c:39-51 | Nothing for a key of another length |
| `ChachaPoly.Cipher.MakePolyKey` | 5g/group_key_mgmt/openssh-9.6p1/cipher-chachapoly.c:77-84 | The one-time key is the first 32 bytes of the key stream of the packet |
| `ChachaPoly.Cipher.CryptHeader` | 5g/group_key_mgmt/openssh-9.6p1/cipher-chachapoly.c:97-101 | The header under its own key, the rest of the source intact |
| `ChachaPoly.Cipher.CryptBody` | 5g/group_key_mgmt/openssh-9.6p1/cipher-chachapoly.c:97-106 | Header and payload under their own keys and counters, also in place |
| `ChachaPoly.Cipher.Crypt` | 5g/group_key_mgmt/openssh-9.6p1/cipher-chachapoly.c:68-120 | Encryption writes the sealed packet; decryption writes the content, or reports a bad tag and leaves dest unchanged; the keys stay whatever came before |
| `ChachaPoly.Cipher.GetLength` | 5g/group_key_mgmt/openssh-9.6p1/cipher-chachapoly.c:123-136 | The length field, or incomplete below four bytes |
| `Addr.NetworkIsInterval` | 5g/group_key_mgmt/openssh-9.6p1/addr.c:493-506 | A host is in a network exactly when it is of the same family and zone and lies between the network and its last address in addr_cmp order |
| `Addr.IncrementsEnumerate` | 5g/group_key_mgmt/openssh-9.6p1/addr.c:304-324 | The hosts of a network are exactly what fewer than 2^(W-l) increments from its address reach |
| `Addr.IncrementIs` | 5g/group_key_mgmt/openssh-9.6p1/addr.c:304-324 | Increment with carry is plus one modulo 2^W |
| `Addr.OrderLaws` | 5g/group_key_mgmt/openssh-9.6p1/addr.c:252-283 | The order is strict and total on IPv4 and IPv6 addresses |
| `Addr.NetmaskNumber` | 5g/group_key_mgmt/openssh-9.6p1/addr.c:166-193 | A netmask of length l is the number 2^W - 2^(W-l) |
| `Addr.HostmaskNumber` | 5g/group_key_mgmt/openssh-9.6p1/addr.c:195-201 | A host mask of length l is the number 2^(W-l) - 1 |
| `Addr.MaskedIs` | 5g/group_key_mgmt/openssh-9.6p1/addr.c:207-228 | AND with the netmask keeps the quotient by 2^(W-l) and clears the rest |
| `Addr.LastIs` | 5g/group_key_mgmt/openssh-9.6p1/addr.c:359-369 | Host bits set to ones give the last number with the same quotient by 2^(W-l) |
| `Addr.FirstDifference` | 5g/group_key_mgmt/openssh-9.6p1/addr.c:270-276 | The first differing byte decides the order of the numbers |
| `Addr.XAddr.SetNetmask` | 5g/group_key_mgmt/openssh-9.6p1/addr.c:166-193 | The netmask, or failure and nothing written for a length that does not fit the family |
| `Addr.XAddr.Invert` | 5g/group_key_mgmt/openssh-9.6p1/addr.c:140-159 | The words in use inverted |
| `Addr.XAddr.SetHostmask` | 5g/group_key_mgmt/openssh-9.6p1/addr.c:195-201 | The host mask, or failure and nothing written |
| `Addr.XAddr.SetAnd` | 5g/group_key_mgmt/openssh-9.6p1/addr.c:207-228 | AND word by word; right when dst is a, and a with itself when dst is b |
| `Addr.XAddr.SetOr` | 5g/group_key_mgmt/openssh-9.6p1/addr.c:230-250 | OR word by word, with the same aliasing |
| `Addr.XAddr.Compare` | 5g/group_key_mgmt/openssh-9.6p1/addr.c:252-283 | For known families the sign is the numeric order, then the zone; other families give -1 or the family order |
| `Addr.XAddr.IsAll0s` | 5g/group_key_mgmt/openssh-9.6p1/addr.c:285-301 | 0 exactly for the number zero of a known family |
| `Addr.XAddr.Carry` | 5g/group_key_mgmt/openssh-9.6p1/addr.c:314-320 | The carry loop adds one to the four words as one 128-bit number |
| `Addr.XAddr.Increment` | 5g/group_key_mgmt/openssh-9.6p1/addr.c:304-324 | Plus one modulo 2^W, words outside the family kept |
| `Addr.XAddr.HostIsAll0s` | 5g/group_key_mgmt/openssh-9.6p1/addr.c:332-343 | 0 exactly when the length fits and the last W-l digits are zero |
| `Addr.XAddr.HostToAll1s` | 5g/group_key_mgmt/openssh-9.6p1/addr.c:359-369 | The last address of the network, or failure and nothing written |
| `Addr.XAddr.Netmatch` | 5g/group_key_mgmt/openssh-9.6p1/addr.c:493-506 | 0 if and only if net is a network address of that length, family and zone agree and the quotients by 2^(W-l) are equal |

## Left out

- Channels: datagram channels, filters, extended data, SOCKS and remote-dynamic prefill, X11 spoofing, forced closing; a window above the buffer limit of 128 MB.
- Packet framing, key exchange, rekeying and the bodies of sshbuf: messages and buffers are byte sequences.
- Mux channels are records named by their allocation number, so what C would do with a freed pointer is not modelled beyond the fact that it is used.
- Malformed proxy messages, which the proxy drops or passes on unread: messages between mux clients and server arrive parsed.
- Handlers of single authentication methods: their verdicts are inputs of the run, as are the parsed packets.
- PAM, GSSAPI, Kerberos, BSD authentication, audit, banners and logging.
- What `auth_activate_options` does after a merge has failed, since its options are then absent.
- The bodies of AES and Poly1305: any functions of the right type.
- `cipher-aes.c` without a context: the error return for a missing context.
- Overflow of `aadlen + len` in `chachapoly_crypt`, which its callers keep small, and the ChaCha buffers that overlap at different offsets.
- Parsing of addresses, netmasks and moduli lines, and the list syntax of `addrmatch.c`.
- `sshauthopt` parsing from authorized_keys and certificates, and memory-allocation failure throughout.
- Timing, secrecy and the clearing of buffers.
- The 5G Python scripts: sockets, plots and random numbers around a small state machine.
- UserAuth.SuccessIffListMet: assumes that submethod names contain no comma, which holds of every device name in the source.
